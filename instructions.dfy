/** `Instruction`: the linked instructions the virtual machine runs. Program
    counters are kept as a `set<nat>` (the source's `BitSet`), visited in
    ascending order. */
module Instructions {

  datatype Instruction =
    | Start(programCounters: set<nat>)
    | CodePoint(codePoint: int, programCounters: set<nat>)
    | Success

  /** `Program`: the list of linked instructions. */
  type Program = seq<Instruction>

  /** The successor set of an instruction (empty for Success). */
  function Targets(ins: Instruction): set<nat>
  {
    if ins.Success? then {} else ins.programCounters
  }

  /** The image of a set of program counters under `indexMap`. */
  function Image(pcs: set<nat>, indexMap: seq<nat>): (r: set<nat>)
    requires forall pc | pc in pcs :: pc < |indexMap|
    ensures forall q :: q in r <==> exists pc | pc in pcs :: indexMap[pc] == q
  {
    set pc | pc in pcs :: indexMap[pc]
  }

  /** The instruction `mapProgramCounters(indexMap)` returns. */
  function Mapped(ins: Instruction, indexMap: seq<nat>): Instruction
    requires forall pc | pc in Targets(ins) :: pc < |indexMap|
  {
    match ins
    case Start(pcs) => assert Targets(ins) == pcs; Start(Image(pcs, indexMap))
    case CodePoint(c, pcs) => assert Targets(ins) == pcs; CodePoint(c, Image(pcs, indexMap))
    case Success => Success
  }

  /** The members of `pcs` below `bound`. */
  function Below(pcs: set<nat>, bound: nat): set<nat>
  {
    set pc | pc in pcs && pc < bound
  }

  /** Builds a fresh set holding `indexMap[pc]` for every member `pc`, visiting
      the members in ascending order. */
  method MapSet(pcs: set<nat>, indexMap: seq<nat>) returns (mapped: set<nat>)
    requires forall pc | pc in pcs :: pc < |indexMap|
    ensures mapped == Image(pcs, indexMap)
  {
    mapped := {};
    var pc := 0;
    while pc < |indexMap|
      invariant pc <= |indexMap|
      invariant mapped == Image(Below(pcs, pc), indexMap)
    {
      if pc in pcs {
        mapped := mapped + {indexMap[pc]};
      }
      assert Below(pcs, pc + 1) == Below(pcs, pc) + (if pc in pcs then {pc} else {});
      pc := pc + 1;
    }
    assert Below(pcs, pc) == pcs;
  }

  /** `mapProgramCounters`: Start and CodePoint map their successors through
      `indexMap` (CodePoint keeps its code point); Success is returned as is. */
  method MapProgramCounters(ins: Instruction, indexMap: seq<nat>) returns (r: Instruction)
    requires forall pc | pc in Targets(ins) :: pc < |indexMap|
    ensures r.Start? == ins.Start? && r.CodePoint? == ins.CodePoint? && r.Success? == ins.Success?
    ensures r.CodePoint? ==> r.codePoint == ins.codePoint
    ensures forall q :: q in Targets(r) <==> exists pc | pc in Targets(ins) :: indexMap[pc] == q
    ensures r == Mapped(ins, indexMap)
  {
    match ins
    case Start(pcs) =>
      assert Targets(ins) == pcs;
      var mapped := MapSet(pcs, indexMap);
      r := Start(mapped);
    case CodePoint(c, pcs) =>
      assert Targets(ins) == pcs;
      var mapped := MapSet(pcs, indexMap);
      r := CodePoint(c, mapped);
    case Success =>
      r := ins;
  }

  /** Mapping through a map that is strictly increasing on the successors keeps
      their number. */
  lemma ImageOfInjective(pcs: set<nat>, indexMap: seq<nat>)
    requires forall pc | pc in pcs :: pc < |indexMap|
    requires forall a, b | a in pcs && b in pcs && a < b :: indexMap[a] < indexMap[b]
    ensures |Image(pcs, indexMap)| == |pcs|
    decreases |pcs|
  {
    if pcs != {} {
      var x :| x in pcs;
      var rest := pcs - {x};
      ImageOfInjective(rest, indexMap);
      assert Image(pcs, indexMap) == Image(rest, indexMap) + {indexMap[x]};
      assert indexMap[x] !in Image(rest, indexMap);
    }
  }

  /** A linked program: every successor is an instruction of the program, and
      none is a Start, which may only come first. */
  ghost predicate WellLinked(prog: Program)
  {
    && (forall k | 0 < k < |prog| :: !prog[k].Start?)
    && (forall k | 0 <= k < |prog| :: InsideAfterStart(prog, Targets(prog[k])))
  }

  /** Every member of `pcs` is an instruction of `prog` other than a Start. */
  ghost predicate InsideAfterStart(prog: Program, pcs: set<nat>)
  {
    forall pc | pc in pcs :: pc < |prog| && !prog[pc].Start?
  }

  /** A successor of an instruction of a well-linked program is a non-Start
      instruction of the program. */
  lemma WellLinkedTarget(prog: Program, k: nat, pc: nat)
    requires WellLinked(prog) && k < |prog| && pc in Targets(prog[k])
    ensures pc < |prog| && !prog[pc].Start?
  {
  }
}
