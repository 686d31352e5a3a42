/** `DefaultBasicProgram`: links a list of basic instructions into a program.
    Every matcher learns the matchers it reaches through forks and jumps, the
    ephemeral instructions are dropped (except a first one, which becomes the
    Start instruction), and the successor sets are renumbered. */
module Linker {
  import opened Wrappers
  import opened Sets
  import opened Instructions
  import opened BasicInstructions
  import opened LinkerGraph

  /** What `List.get` or `BitSet.set` throw for an index out of range. */
  const INDEX_OUT_OF_BOUNDS: string := "IndexOutOfBoundsException"
  /** The propagation loop ran out of its pass budget. */
  const NOT_SETTLED: string := "Program counters did not settle."

  /** The resolved successor sets of all instructions. */
  ghost function AllReachable(basic: seq<BasicInstruction>): (r: seq<set<nat>>)
    ensures |r| == |basic|
    ensures forall i | 0 <= i < |basic| :: r[i] == Reachable(basic, i)
  {
    seq(|basic|, i requires 0 <= i < |basic| => Reachable(basic, i))
  }

  // ---------------------------------------------------------------------
  // initNextProgramCounters
  // ---------------------------------------------------------------------

  /** The members of `qs` that are indices of matchers (`ephemeral` false) or
      of ephemerals (`ephemeral` true). */
  function OfKind(basic: seq<BasicInstruction>, qs: set<int>, ephemeral: bool): set<nat>
  {
    set q: nat | q < |basic| && q in qs && IsEphemeral(basic[q]) == ephemeral
  }

  lemma OfKindAdd(basic: seq<BasicInstruction>, qs: set<int>, q: nat, ephemeral: bool)
    requires q < |basic|
    ensures OfKind(basic, qs + {q}, ephemeral)
      == OfKind(basic, qs, ephemeral) + (if IsEphemeral(basic[q]) == ephemeral then {q} else {})
  {
  }

  /** Sorts the successors of an instruction into matchers and ephemerals,
      visiting them in ascending order; a successor outside the program is the
      `IndexOutOfBoundsException` of `basicInstructions.get`. */
  method ClassifySuccessors(basic: seq<BasicInstruction>, successors: set<int>) returns (r: Result<(set<nat>, set<nat>)>)
    ensures r.Ok? <==> forall q | q in successors :: 0 <= q < |basic|
    ensures r.Err? ==> r.message == INDEX_OUT_OF_BOUNDS
    ensures r.Ok? ==> r.value.0 == OfKind(basic, successors, false) && r.value.1 == OfKind(basic, successors, true)
  {
    var rest := successors;
    ghost var done: set<int> := {};
    var matchers: set<nat> := {};
    var ephemerals: set<nat> := {};
    while rest != {}
      invariant rest <= successors && done == successors - rest
      invariant forall q | q in done :: 0 <= q < |basic|
      invariant matchers == OfKind(basic, done, false) && ephemerals == OfKind(basic, done, true)
      decreases |rest|
    {
      MinimumExists(rest);
      var q :| q in rest && forall x | x in rest :: q <= x;
      if q < 0 || q >= |basic| {
        return Err(INDEX_OUT_OF_BOUNDS);
      }
      ClassifyStep(basic, done, q, matchers, ephemerals);
      MoveMember(successors, rest, done, q);
      if IsEphemeral(basic[q]) {
        ephemerals := ephemerals + {q};
      } else {
        matchers := matchers + {q};
      }
      rest := rest - {q};
      done := done + {q};
    }
    assert done == successors;
    return Ok((matchers, ephemerals));
  }

  /** Sorting one more successor `q` into its set. */
  lemma ClassifyStep(basic: seq<BasicInstruction>, done: set<int>, q: nat, matchers: set<nat>, ephemerals: set<nat>)
    requires q < |basic|
    requires matchers == OfKind(basic, done, false) && ephemerals == OfKind(basic, done, true)
    ensures (if IsEphemeral(basic[q]) then matchers else matchers + {q}) == OfKind(basic, done + {q}, false)
    ensures (if IsEphemeral(basic[q]) then ephemerals + {q} else ephemerals) == OfKind(basic, done + {q}, true)
  {
    OfKindAdd(basic, done, q, false);
    OfKindAdd(basic, done, q, true);
  }

  /** Moving `q` from the successors still to visit to those visited. */
  lemma MoveMember(successors: set<int>, rest: set<int>, done: set<int>, q: int)
    requires q in rest && rest <= successors && done == successors - rest
    ensures rest - {q} <= successors && done + {q} == successors - (rest - {q})
    ensures |rest - {q}| < |rest|
  {
  }

  /** The first half of `initNextProgramCounters`: one pair of sets per
      instruction, holding its immediate matcher and ephemeral successors. */
  method Classify(basic: seq<BasicInstruction>) returns (r: Result<(seq<set<nat>>, seq<set<nat>>)>)
    ensures r.Ok? <==> InRange(basic)
    ensures r.Err? ==> r.message == INDEX_OUT_OF_BOUNDS
    ensures r.Ok? ==> |r.value.0| == |basic| && |r.value.1| == |basic|
    ensures r.Ok? ==> forall i | 0 <= i < |basic| ::
      r.value.0[i] == SuccessorsWhere(basic, i, false) && r.value.1[i] == SuccessorsWhere(basic, i, true)
  {
    var matchers: seq<set<nat>> := [];
    var ephemerals: seq<set<nat>> := [];
    var pc := 0;
    while pc < |basic|
      invariant pc <= |basic|
      invariant |matchers| == pc && |ephemerals| == pc
      invariant forall i | 0 <= i < pc ::
        matchers[i] == SuccessorsWhere(basic, i, false) && ephemerals[i] == SuccessorsWhere(basic, i, true)
      invariant forall i, q | 0 <= i < pc && q in NextProgramCounters(basic[i], i) :: 0 <= q < |basic|
    {
      var pair := ClassifySuccessors(basic, NextProgramCounters(basic[pc], pc));
      if pair.Err? {
        return Err(pair.message);
      }
      matchers := matchers + [pair.value.0];
      ephemerals := ephemerals + [pair.value.1];
      pc := pc + 1;
    }
    return Ok((matchers, ephemerals));
  }

  /** Resolves the pending ephemerals of pair `i` once: every member `j` of a
      snapshot of the set is cleared and, unless it is `i` itself, `j`'s sets
      are or-ed into `i`'s. */
  method ResolvePair(ghost basic: seq<BasicInstruction>, matchers: seq<set<nat>>, ephemerals: seq<set<nat>>, i: nat)
    returns (matchers': seq<set<nat>>, ephemerals': seq<set<nat>>)
    requires Inv(basic, matchers, ephemerals) && i < |basic|
    ensures Inv(basic, matchers', ephemerals')
    ensures forall k | 0 <= k < |basic| && k != i :: ephemerals'[k] == ephemerals[k]
  {
    matchers', ephemerals' := matchers, ephemerals;
    var pending := ephemerals[i];
    while pending != {}
      invariant Inv(basic, matchers', ephemerals')
      invariant pending <= ephemerals'[i]
      invariant forall k | 0 <= k < |basic| && k != i :: ephemerals'[k] == ephemerals[k]
      decreases |pending|
    {
      NatMinimumExists(pending);
      var j :| j in pending && forall x | x in pending :: j <= x;
      ResolveStep(basic, matchers', ephemerals', i, j);
      if j != i {
        matchers' := matchers'[i := matchers'[i] + matchers'[j]];
        ephemerals' := ephemerals'[i := (ephemerals'[i] - {j}) + ephemerals'[j]];
      } else {
        ephemerals' := ephemerals'[i := ephemerals'[i] - {j}];
      }
      pending := pending - {j};
    }
  }

  /** One pass of the propagation loop over all pairs; `somethingChanged`
      tells whether some pair had pending ephemerals. */
  method Pass(ghost basic: seq<BasicInstruction>, matchers: seq<set<nat>>, ephemerals: seq<set<nat>>)
    returns (matchers': seq<set<nat>>, ephemerals': seq<set<nat>>, somethingChanged: bool)
    requires Inv(basic, matchers, ephemerals)
    ensures Inv(basic, matchers', ephemerals')
    ensures !somethingChanged ==> forall k | 0 <= k < |basic| :: ephemerals'[k] == {}
  {
    matchers', ephemerals' := matchers, ephemerals;
    somethingChanged := false;
    var i := 0;
    while i < |ephemerals'|
      invariant Inv(basic, matchers', ephemerals')
      invariant |ephemerals'| == |basic| && i <= |basic|
      invariant !somethingChanged ==> forall k | 0 <= k < i :: ephemerals'[k] == {}
    {
      if ephemerals'[i] != {} {
        somethingChanged := true;
        matchers', ephemerals' := ResolvePair(basic, matchers', ephemerals', i);
      }
      i := i + 1;
    }
  }

  /** The second half of `initNextProgramCounters`: repeats passes over all
      pairs until no pair has a pending ephemeral; at most `fuel` passes. */
  method Propagate(ghost basic: seq<BasicInstruction>, matchers0: seq<set<nat>>, ephemerals0: seq<set<nat>>, fuel: nat)
    returns (r: Result<seq<set<nat>>>)
    requires Inv(basic, matchers0, ephemerals0)
    ensures r.Ok? ==> r.value == AllReachable(basic)
    ensures r.Err? ==> r.message == NOT_SETTLED
  {
    var matchers, ephemerals := matchers0, ephemerals0;
    var passes := 0;
    var somethingChanged := true;
    while somethingChanged
      invariant Inv(basic, matchers, ephemerals)
      invariant passes <= fuel
      invariant !somethingChanged ==> forall k | 0 <= k < |basic| :: ephemerals[k] == {}
      decreases fuel - passes, somethingChanged
    {
      if passes == fuel {
        return Err(NOT_SETTLED);
      }
      passes := passes + 1;
      matchers, ephemerals, somethingChanged := Pass(basic, matchers, ephemerals);
    }
    Settled(basic, matchers, ephemerals);
    assert |matchers| == |basic|;
    return Ok(matchers);
  }

  /** `initNextProgramCounters`: the matchers every instruction reaches through
      forks and jumps. */
  method InitNextProgramCounters(basic: seq<BasicInstruction>, fuel: nat) returns (r: Result<seq<set<nat>>>)
    ensures r.Ok? ==> InRange(basic) && r.value == AllReachable(basic)
    ensures !InRange(basic) ==> r == Err(INDEX_OUT_OF_BOUNDS)
    ensures r.Err? && InRange(basic) ==> r.message == NOT_SETTLED
  {
    var pairs := Classify(basic);
    if pairs.Err? {
      return Err(pairs.message);
    }
    InitialInv(basic, pairs.value.0, pairs.value.1);
    r := Propagate(basic, pairs.value.0, pairs.value.1, fuel);
  }

  // ---------------------------------------------------------------------
  // toProgram: the specification
  // ---------------------------------------------------------------------

  /** The slots `toProgram` keeps: the first instruction and every matcher. */
  predicate Kept(basic: seq<BasicInstruction>, i: nat)
    requires i < |basic|
  {
    i == 0 || !IsEphemeral(basic[i])
  }

  /** The number of slots below `k` that `toProgram` drops. */
  function DroppedBelow(basic: seq<BasicInstruction>, k: nat): (r: nat)
    requires k <= |basic|
    ensures r <= k && (k > 0 ==> r < k)
  {
    if k == 0 then 0 else DroppedBelow(basic, k - 1) + (if Kept(basic, k - 1) then 0 else 1)
  }

  /** `indexMap`: the new index of every slot (a dropped slot gets the index of
      the slot kept after it). */
  function IndexMap(basic: seq<BasicInstruction>): (r: seq<nat>)
    ensures |r| == |basic|
    ensures forall i | 0 <= i < |basic| :: r[i] == i - DroppedBelow(basic, i + 1)
  {
    seq(|basic|, i requires 0 <= i < |basic| => i - DroppedBelow(basic, i + 1))
  }

  /** The unlinked instruction of a kept slot. */
  ghost function RawInstruction(basic: seq<BasicInstruction>, i: nat): Instruction
    requires i < |basic| && Kept(basic, i)
  {
    if IsEphemeral(basic[i]) then Start(Reachable(basic, i)) else ToInstruction(basic[i], Reachable(basic, i))
  }

  /** The `instructions` list before renumbering: `None` for a dropped slot. */
  ghost function Slot(basic: seq<BasicInstruction>, i: nat): Option<Instruction>
    requires i < |basic|
  {
    if Kept(basic, i) then Some(RawInstruction(basic, i)) else None
  }

  /** The linked instructions of the slots below `k`. */
  ghost function LinkedBelow(basic: seq<BasicInstruction>, k: nat): seq<Instruction>
    requires k <= |basic|
  {
    if k == 0 then []
    else
      var rest := LinkedBelow(basic, k - 1);
      if Kept(basic, k - 1) then rest + [Mapped(RawInstruction(basic, k - 1), IndexMap(basic))] else rest
  }

  /** The program `toProgram` returns. */
  ghost function Linked(basic: seq<BasicInstruction>): Program
  {
    LinkedBelow(basic, |basic|)
  }

  /** Between `a` and `b` at most `b - a` slots are dropped, one fewer when
      slot `a` is kept. */
  lemma {:induction false} DroppedBetween(basic: seq<BasicInstruction>, a: nat, b: nat)
    requires a <= b <= |basic|
    ensures DroppedBelow(basic, a) <= DroppedBelow(basic, b)
    ensures DroppedBelow(basic, b) - DroppedBelow(basic, a) <= b - a
    ensures a < b && Kept(basic, a) ==> DroppedBelow(basic, b) - DroppedBelow(basic, a) < b - a
    decreases b
  {
    if a < b {
      DroppedBetween(basic, a, b - 1);
    }
  }

  /** Kept slots get strictly increasing new indices. */
  lemma IndexMapIncreasing(basic: seq<BasicInstruction>)
    ensures forall a, b | 0 <= a < b < |basic| && Kept(basic, a) && Kept(basic, b) ::
      IndexMap(basic)[a] < IndexMap(basic)[b]
  {
    forall a, b | 0 <= a < b < |basic| && Kept(basic, a) && Kept(basic, b)
      ensures IndexMap(basic)[a] < IndexMap(basic)[b]
    {
      DroppedBetween(basic, a, b);
    }
  }

  /** `p` is the new index of a kept slot below `k`. */
  ghost predicate IsNewIndex(basic: seq<BasicInstruction>, k: nat, p: nat)
    requires k <= |basic|
  {
    exists i | 0 <= i < k && Kept(basic, i) :: IndexMap(basic)[i] == p
  }

  /** The linked instructions of the slots below `k`: one per kept slot, found
      at the slot's new index, and nothing else. */
  lemma {:induction false} LinkedBelowFacts(basic: seq<BasicInstruction>, k: nat)
    requires k <= |basic|
    ensures |LinkedBelow(basic, k)| == k - DroppedBelow(basic, k)
    ensures forall i | 0 <= i < k && Kept(basic, i) ::
      IndexMap(basic)[i] < |LinkedBelow(basic, k)|
      && LinkedBelow(basic, k)[IndexMap(basic)[i]] == Mapped(RawInstruction(basic, i), IndexMap(basic))
    ensures forall p | 0 <= p < |LinkedBelow(basic, k)| :: IsNewIndex(basic, k, p)
    decreases k
  {
    if k > 0 {
      LinkedBelowFacts(basic, k - 1);
      var prev := LinkedBelow(basic, k - 1);
      if Kept(basic, k - 1) {
        assert LinkedBelow(basic, k) == prev + [Mapped(RawInstruction(basic, k - 1), IndexMap(basic))];
        assert IndexMap(basic)[k - 1] == |prev|;
      } else {
        assert LinkedBelow(basic, k) == prev;
      }
      forall p | 0 <= p < |LinkedBelow(basic, k)|
        ensures IsNewIndex(basic, k, p)
      {
        if p < |prev| {
          assert IsNewIndex(basic, k - 1, p);
          var i :| 0 <= i < k - 1 && Kept(basic, i) && IndexMap(basic)[i] == p;
        } else {
          assert IndexMap(basic)[k - 1] == p;
        }
      }
    }
  }

  /** What `toProgram` promises about the program it links: one instruction
      per kept slot, in order, at the slot's new index; no successor set loses
      a member to renumbering. */
  lemma LinkedShape(basic: seq<BasicInstruction>)
    ensures |Linked(basic)| == |basic| - DroppedBelow(basic, |basic|)
    ensures forall i | 0 <= i < |basic| && Kept(basic, i) ::
      IndexMap(basic)[i] < |Linked(basic)|
      && Linked(basic)[IndexMap(basic)[i]] == Mapped(RawInstruction(basic, i), IndexMap(basic))
    ensures forall i | 0 <= i < |basic| && Kept(basic, i) ::
      |Targets(Linked(basic)[IndexMap(basic)[i]])| == |Reachable(basic, i)|
  {
    var prog := Linked(basic);
    var im := IndexMap(basic);
    LinkedBelowFacts(basic, |basic|);
    IndexMapIncreasing(basic);
    forall i | 0 <= i < |basic| && Kept(basic, i)
      ensures |Targets(prog[im[i]])| == |Reachable(basic, i)|
    {
      RawTargets(basic, i);
      assert Targets(prog[im[i]]) == Image(Reachable(basic, i), im);
      ImageOfInjective(Reachable(basic, i), im);
    }
  }

  /** The successors of a kept slot's unlinked instruction are what it reaches. */
  lemma RawTargets(basic: seq<BasicInstruction>, i: nat)
    requires i < |basic| && Kept(basic, i)
    ensures Targets(RawInstruction(basic, i)) == Reachable(basic, i)
    ensures i > 0 ==> !RawInstruction(basic, i).Start?
  {
    if basic[i].BasicSuccess? {
      SuccessReachesNothing(basic, i);
    }
  }

  /** The program `toProgram` links is well linked: only its first instruction
      may be a Start, and every successor is a non-Start instruction of it. */
  lemma LinkedWellLinked(basic: seq<BasicInstruction>)
    ensures WellLinked(Linked(basic))
  {
    var prog := Linked(basic);
    LinkedBelowFacts(basic, |basic|);
    forall k | 0 < k < |prog|
      ensures !prog[k].Start?
    {
      LinkedNotStart(basic, k);
    }
    forall k, pc | 0 <= k < |prog| && pc in Targets(prog[k])
      ensures pc < |prog| && !prog[pc].Start?
    {
      LinkedTarget(basic, k, pc);
    }
  }

  /** Only the first linked instruction may be a Start. */
  lemma LinkedNotStart(basic: seq<BasicInstruction>, k: nat)
    requires 0 < k < |Linked(basic)|
    ensures !Linked(basic)[k].Start?
  {
    var im := IndexMap(basic);
    LinkedBelowFacts(basic, |basic|);
    assert IsNewIndex(basic, |basic|, k);
    var i :| 0 <= i < |basic| && Kept(basic, i) && im[i] == k;
    assert i != 0;
    RawTargets(basic, i);
  }

  /** A successor of a linked instruction is a non-Start instruction of the
      program. */
  lemma LinkedTarget(basic: seq<BasicInstruction>, k: nat, pc: nat)
    requires k < |Linked(basic)| && pc in Targets(Linked(basic)[k])
    ensures pc < |Linked(basic)| && !Linked(basic)[pc].Start?
  {
    var prog := Linked(basic);
    var im := IndexMap(basic);
    LinkedBelowFacts(basic, |basic|);
    assert IsNewIndex(basic, |basic|, k);
    var i :| 0 <= i < |basic| && Kept(basic, i) && im[i] == k;
    RawTargets(basic, i);
    assert Targets(prog[k]) == Image(Reachable(basic, i), im);
    var m :| m in Reachable(basic, i) && im[m] == pc;
    assert Kept(basic, m);
    if m == 0 {
      RawTargets(basic, 0);
      assert !IsEphemeral(basic[0]);
    } else {
      RawTargets(basic, m);
    }
  }

  // ---------------------------------------------------------------------
  // The class
  // ---------------------------------------------------------------------

  class DefaultBasicProgram {
    const basicInstructions: seq<BasicInstruction>
    /** Empty until the first query; then the resolved successor sets. */
    var allNextProgramCounters: seq<set<nat>>

    ghost predicate Valid()
      reads this
    {
      allNextProgramCounters == []
      || (InRange(basicInstructions) && allNextProgramCounters == AllReachable(basicInstructions))
    }

    constructor(basicInstructions: seq<BasicInstruction>)
      ensures this.basicInstructions == basicInstructions
      ensures allNextProgramCounters == []
      ensures Valid()
    {
      this.basicInstructions := basicInstructions;
      allNextProgramCounters := [];
    }

    /** `getNextProgramCounters`: the matchers instruction `pc` continues at,
        computed for all instructions on the first call and cached. */
    method GetNextProgramCounters(pc: nat, fuel: nat) returns (r: Result<set<nat>>)
      requires Valid() && pc < |basicInstructions|
      modifies this
      ensures Valid()
      ensures old(allNextProgramCounters) != [] ==> allNextProgramCounters == old(allNextProgramCounters) && r.Ok?
      ensures r.Ok? ==> allNextProgramCounters != [] && r.value == Reachable(basicInstructions, pc)
      ensures r.Err? ==> allNextProgramCounters == []
      ensures !InRange(basicInstructions) ==> r == Err(INDEX_OUT_OF_BOUNDS)
      ensures r.Err? && InRange(basicInstructions) ==> r.message == NOT_SETTLED
    {
      if allNextProgramCounters == [] {
        var init := InitNextProgramCounters(basicInstructions, fuel);
        if init.Err? {
          return Err(init.message);
        }
        allNextProgramCounters := init.value;
      }
      return Ok(allNextProgramCounters[pc]);
    }

    /** `toProgram`: the linked program. */
    method ToProgram(fuel: nat) returns (r: Result<Program>)
      requires Valid()
      modifies this
      ensures Valid()
      ensures r.Ok? ==> InRange(basicInstructions) && r.value == Linked(basicInstructions)
      ensures !InRange(basicInstructions) ==> r == Err(INDEX_OUT_OF_BOUNDS)
      ensures r.Err? && InRange(basicInstructions) ==> r.message == NOT_SETTLED
    {
      var n := |basicInstructions|;
      var instructions: seq<Option<Instruction>> := seq(n, _ => None);
      if n > 0 {
        var first := basicInstructions[0];
        var next := GetNextProgramCounters(0, fuel);
        if next.Err? {
          return Err(next.message);
        }
        if IsEphemeral(first) {
          instructions := instructions[0 := Some(Start(next.value))];
        } else {
          instructions := instructions[0 := Some(ToInstruction(first, next.value))];
        }
      }
      var i := 1;
      while i < n
        invariant Valid() && (n > 0 ==> allNextProgramCounters != [] && i <= n)
        invariant |instructions| == n
        invariant forall k | 0 <= k < i && k < n :: instructions[k] == Slot(basicInstructions, k)
        invariant forall k | i <= k < n :: instructions[k] == None
      {
        var instruction := basicInstructions[i];
        if !IsEphemeral(instruction) {
          var next := GetNextProgramCounters(i, fuel);
          assert next.Ok?;
          instructions := instructions[i := Some(ToInstruction(instruction, next.value))];
        }
        i := i + 1;
      }
      assert n > 0 ==> InRange(basicInstructions);
      assert forall k | 0 <= k < n :: instructions[k] == Slot(basicInstructions, k);
      var indexMap := new nat[n];
      var nullCount := 0;
      i := 0;
      while i < n
        invariant i <= n && Valid()
        invariant nullCount == DroppedBelow(basicInstructions, i)
        invariant forall k | 0 <= k < i :: indexMap[k] == IndexMap(basicInstructions)[k]
      {
        if instructions[i].None? {
          nullCount := nullCount + 1;
        }
        indexMap[i] := i - nullCount;
        i := i + 1;
      }
      assert indexMap[..] == IndexMap(basicInstructions);
      var mapped: seq<Instruction> := [];
      i := 0;
      while i < n
        invariant i <= n && Valid()
        invariant indexMap[..] == IndexMap(basicInstructions)
        invariant mapped == LinkedBelow(basicInstructions, i)
      {
        var instruction := instructions[i];
        if instruction.Some? {
          var linked := MapProgramCounters(instruction.value, indexMap[..]);
          mapped := mapped + [linked];
        }
        i := i + 1;
      }
      return Ok(mapped);
    }
  }
}
