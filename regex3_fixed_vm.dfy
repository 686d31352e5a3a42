/** A corrected `regex3` virtual machine. `VirtualMachine.run` as written
    lets one bit set guard both the threads of the current tick and the
    threads queued for the next one, so a thread that consumes a code point
    is dropped when the same program counter was already visited in this
    tick; and a Range thread alive at the end of the input asks its bit set
    about -1 and fails; and a Single of the end-of-input marker inside a loop
    matches that marker on every pass, so the run never ends. Here each list
    has its own set, the starting threads are in the set of the list they
    start, and neither Single nor Range matches the end of the input. */
module Regex3FixedVm {
  import opened Wrappers
  import opened JavaStrings
  import opened Regex3CodePoint
  import opened Regex3CodePoints
  import opened Regex3Instruction
  import opened Regex3Vm
  import Regex3Builder

  // ---------------------------------------------------------------------
  // What a tick should compute
  // ---------------------------------------------------------------------

  /** A Single or Range instruction that lets its thread move on past
      `codePoint`; the end of the input is matched by neither. */
  predicate Consumes(instruction: Instruction, codePoint: CodePoint)
  {
    match instruction
    case Single(c) => c == codePoint && codePoint != EOF
    case Range(members) => codePoint.value >= 0 && codePoint.value in members
    case _ => false
  }

  /** Where a thread at `pc` goes without reading: both ways of a Fork, the
      target of a Jump. */
  function Successors(program: Program, pc: nat): set<int>
    requires pc < |program|
  {
    match program[pc]
    case Fork(offset) => {pc + 1, pc + offset}
    case Jump(offset) => {pc + offset}
    case _ => {}
  }

  ghost function Elems(s: seq<nat>): set<nat>
  {
    set x | x in s
  }

  /** A set of program counters that holds every successor of its members. */
  ghost predicate EpsClosed(program: Program, pcs: set<nat>)
  {
    forall pc | pc in pcs && pc < |program| ::
      forall target | target in Successors(program, pc) :: 0 <= target && target as nat in pcs
  }

  /** The threads a tick hands on: one past each member that consumes the
      code point. */
  ghost function Advance(program: Program, codePoint: CodePoint, pcs: set<nat>): set<nat>
  {
    set pc | pc in pcs && pc < |program| && Consumes(program[pc], codePoint) :: (pc + 1) as nat
  }

  /** Some member is at a Success instruction. */
  ghost predicate Accepting(program: Program, pcs: set<nat>)
  {
    exists pc | pc in pcs :: pc < |program| && program[pc].Success?
  }

  // ---------------------------------------------------------------------
  // One tick
  // ---------------------------------------------------------------------

  /** The list being walked and its set, the list for the next tick and its
      set, and the longest text matched so far. */
  datatype FixedState = FixedState(active: seq<nat>, spawned: set<nat>, next: seq<nat>, enqueued: set<nat>, longest: Option<Text>)

  /** The state a tick starts from: its threads are already in their set. */
  function Start(active: seq<nat>, longest: Option<Text>): (s: FixedState)
    ensures s.active == active && s.spawned == Elems(active)
    ensures s.next == [] && s.enqueued == {} && s.longest == longest
  {
    FixedState(active, set x | x in active, [], {}, longest)
  }

  function SpawnFixed(s: FixedState, target: nat): (r: FixedState)
    ensures r.next == s.next && r.enqueued == s.enqueued && r.longest == s.longest
    ensures r.active == if target in s.spawned then s.active else s.active + [target]
    ensures r.spawned == s.spawned + {target}
  {
    if target in s.spawned then s
    else s.(active := s.active + [target], spawned := s.spawned + {target})
  }

  function EnqueueFixed(s: FixedState, target: nat): (r: FixedState)
    ensures r.active == s.active && r.spawned == s.spawned && r.longest == s.longest
    ensures r.next == if target in s.enqueued then s.next else s.next + [target]
    ensures r.enqueued == s.enqueued + {target}
  {
    if target in s.enqueued then s
    else s.(next := s.next + [target], enqueued := s.enqueued + {target})
  }

  /** Where a Fork or Jump thread at `pc` sends its successors. */
  function Branch(s: FixedState, pc: nat, instruction: Instruction): (r: FixedState)
    requires instruction.Fork? || instruction.Jump?
    requires pc + instruction.offset >= 0
    ensures r.next == s.next && r.enqueued == s.enqueued && r.longest == s.longest
  {
    var taken := if instruction.Fork? then SpawnFixed(s, pc + 1) else s;
    SpawnFixed(taken, pc + instruction.offset)
  }

  /** The work on thread `i`; as in `run`, a program counter outside the
      program and a negative target are out of bounds. */
  function FixedStep(program: Program, codePoint: CodePoint, matched: Text, s: FixedState, i: nat): Result<FixedState>
    requires i < |s.active|
  {
    var pc := s.active[i];
    if pc >= |program| then Err(INDEX_OUT_OF_BOUNDS)
    else
      var instruction := program[pc];
      if instruction.Success? then Ok(s.(longest := Record(s.longest, matched)))
      else if instruction.Fork? || instruction.Jump? then
        if pc + instruction.offset < 0 then Err(INDEX_OUT_OF_BOUNDS)
        else Ok(Branch(s, pc, instruction))
      else if Consumes(instruction, codePoint) then Ok(EnqueueFixed(s, pc + 1))
      else Ok(s)
  }

  /** `t` follows `s`: the walked list only grows at its end, and either it
      stayed as it was or its set gained a member below `bound`. */
  ghost predicate Grows(s: FixedState, t: FixedState, bound: nat)
  {
    && s.active <= t.active
    && ((t.spawned == s.spawned && |t.active| == |s.active|)
        || |Span(0, bound) - t.spawned| < |Span(0, bound) - s.spawned|)
  }

  lemma SpawnGrows(s: FixedState, target: nat, bound: nat)
    requires target < bound
    ensures Grows(s, SpawnFixed(s, target), bound)
  {
    if target !in s.spawned {
      FewerLeft(s.spawned, target, bound);
    }
  }

  lemma BranchGrows(s: FixedState, pc: nat, instruction: Instruction, bound: nat)
    requires instruction.Fork? || instruction.Jump?
    requires pc + instruction.offset >= 0
    requires pc + 1 < bound && pc + instruction.offset < bound
    ensures Grows(s, Branch(s, pc, instruction), bound)
  {
    var target := pc + instruction.offset;
    if instruction.Fork? {
      var taken := SpawnFixed(s, pc + 1);
      assert Branch(s, pc, instruction) == SpawnFixed(taken, target);
      SpawnGrows(s, pc + 1, bound);
      SpawnGrows(taken, target, bound);
      GrowsTrans(s, taken, SpawnFixed(taken, target), bound);
    } else {
      assert Branch(s, pc, instruction) == SpawnFixed(s, target);
      SpawnGrows(s, target, bound);
    }
  }

  lemma GrowsTrans(s: FixedState, t: FixedState, u: FixedState, bound: nat)
    requires Grows(s, t, bound) && Grows(t, u, bound)
    ensures Grows(s, u, bound)
  {
  }

  lemma FixedStepGrows(program: Program, codePoint: CodePoint, matched: Text, s: FixedState, i: nat)
    requires i < |s.active| && FixedStep(program, codePoint, matched, s, i).Ok?
    ensures Grows(s, FixedStep(program, codePoint, matched, s, i).value, Bound(program))
  {
    var pc := s.active[i];
    var instruction := program[pc];
    if instruction.Fork? || instruction.Jump? {
      assert pc + 1 < Bound(program) && pc + OffsetOf(instruction) < Bound(program);
      BranchGrows(s, pc, instruction, Bound(program));
    }
  }

  /** The rest of a tick from thread `i` on. */
  function FixedDrain(program: Program, codePoint: CodePoint, matched: Text, s: FixedState, i: nat): Result<FixedState>
    requires i <= |s.active|
    decreases |Span(0, Bound(program)) - s.spawned|, |s.active| - i
  {
    if i == |s.active| then Ok(s)
    else
      var t :- FixedStep(program, codePoint, matched, s, i);
      FixedStepGrows(program, codePoint, matched, s, i);
      FixedDrain(program, codePoint, matched, t, i + 1)
  }

  /** A tick: the walk of `active` from its start. */
  function FixedTick(program: Program, codePoint: CodePoint, matched: Text, active: seq<nat>, longest: Option<Text>): Result<FixedState>
  {
    FixedDrain(program, codePoint, matched, Start(active, longest), 0)
  }

  // ---------------------------------------------------------------------
  // What a tick computes
  // ---------------------------------------------------------------------

  /** The walk so far: the sets hold exactly their lists, the threads walked
      are in the program and their successors are in the list, the next
      tick's list is what they hand on, and the longest text was recorded
      exactly when one of them is at Success. */
  ghost predicate Walked(program: Program, codePoint: CodePoint, matched: Text, longest: Option<Text>, s: FixedState, i: nat)
  {
    && i <= |s.active|
    && s.spawned == Elems(s.active)
    && s.enqueued == Elems(s.next)
    && (forall k | 0 <= k < i :: s.active[k] < |program|)
    && (forall k | 0 <= k < i ::
          forall target | target in Successors(program, s.active[k]) :: 0 <= target && target as nat in s.spawned)
    && Elems(s.next) == Advance(program, codePoint, Elems(s.active[..i]))
    && s.longest == if Accepting(program, Elems(s.active[..i])) then Record(longest, matched) else longest
  }

  lemma ElemsSnoc(s: seq<nat>, x: nat)
    ensures Elems(s + [x]) == Elems(s) + {x}
  {
    assert forall y :: y in s + [x] <==> y in s || y == x;
  }

  /** Walking one more thread: the walked prefix gains it. */
  lemma WalkedPrefix(active: seq<nat>, i: nat)
    requires i < |active|
    ensures Elems(active[..i + 1]) == Elems(active[..i]) + {active[i]}
  {
    assert active[..i + 1] == active[..i] + [active[i]];
    ElemsSnoc(active[..i], active[i]);
  }

  lemma AdvanceAdd(program: Program, codePoint: CodePoint, pcs: set<nat>, pc: nat)
    requires pc < |program|
    ensures Advance(program, codePoint, pcs + {pc})
      == Advance(program, codePoint, pcs) + (if Consumes(program[pc], codePoint) then {pc + 1} else {})
  {
  }

  lemma AcceptingAdd(program: Program, pcs: set<nat>, pc: nat)
    requires pc < |program|
    ensures Accepting(program, pcs + {pc}) <==> Accepting(program, pcs) || program[pc].Success?
  {
    if program[pc].Success? {
      assert pc in pcs + {pc};
    }
  }

  /** Spawning keeps the set equal to the list and the list's start as it was. */
  lemma SpawnWalked(s: FixedState, target: nat)
    requires s.spawned == Elems(s.active)
    ensures var t := SpawnFixed(s, target);
      && t.spawned == Elems(t.active) && s.active <= t.active && target in t.spawned
  {
    if target !in s.spawned {
      ElemsSnoc(s.active, target);
    }
  }

  /** A Fork or Jump thread: its successors join the list and its set. */
  lemma BranchWalked(s: FixedState, pc: nat, instruction: Instruction)
    requires instruction.Fork? || instruction.Jump?
    requires pc + instruction.offset >= 0
    requires s.spawned == Elems(s.active)
    ensures var t := Branch(s, pc, instruction);
      && t.spawned == Elems(t.active) && s.active <= t.active && s.spawned <= t.spawned
      && (instruction.Fork? ==> pc + 1 in t.spawned)
      && pc + instruction.offset in t.spawned
  {
    var taken := if instruction.Fork? then SpawnFixed(s, pc + 1) else s;
    if instruction.Fork? {
      SpawnWalked(s, pc + 1);
    }
    SpawnWalked(taken, pc + instruction.offset);
  }

  /** The walked prefix of a list that only grew at its end. */
  lemma PrefixKept(s: seq<nat>, t: seq<nat>, i: nat)
    requires i < |s| && s <= t
    ensures t[..i + 1] == s[..i + 1] && t[i] == s[i]
  {
  }

  lemma BranchStepWalked(program: Program, codePoint: CodePoint, matched: Text, longest: Option<Text>, s: FixedState, i: nat)
    requires i < |s.active| && Walked(program, codePoint, matched, longest, s, i)
    requires s.active[i] < |program|
    requires var instruction := program[s.active[i]];
      (instruction.Fork? || instruction.Jump?) && s.active[i] + instruction.offset >= 0
    ensures Walked(program, codePoint, matched, longest, Branch(s, s.active[i], program[s.active[i]]), i + 1)
  {
    var pc := s.active[i];
    var instruction := program[pc];
    var t := Branch(s, pc, instruction);
    BranchWalked(s, pc, instruction);
    assert !Consumes(instruction, codePoint);
    assert forall target | target in Successors(program, pc) :: 0 <= target && target as nat in t.spawned;
    WalkedQuietStep(program, codePoint, matched, longest, s, t, i);
  }

  lemma SuccessStepWalked(program: Program, codePoint: CodePoint, matched: Text, longest: Option<Text>, s: FixedState, i: nat)
    requires i < |s.active| && Walked(program, codePoint, matched, longest, s, i)
    requires s.active[i] < |program| && program[s.active[i]].Success?
    ensures Walked(program, codePoint, matched, longest, s.(longest := Record(s.longest, matched)), i + 1)
  {
    var pc := s.active[i];
    WalkedPrefix(s.active, i);
    AdvanceAdd(program, codePoint, Elems(s.active[..i]), pc);
    AcceptingAdd(program, Elems(s.active[..i]), pc);
  }

  lemma MatchStepWalked(program: Program, codePoint: CodePoint, matched: Text, longest: Option<Text>, s: FixedState, i: nat)
    requires i < |s.active| && Walked(program, codePoint, matched, longest, s, i)
    requires s.active[i] < |program|
    requires var instruction := program[s.active[i]]; instruction.Single? || instruction.Range?
    ensures var pc := s.active[i];
      Walked(program, codePoint, matched, longest, if Consumes(program[pc], codePoint) then EnqueueFixed(s, pc + 1) else s, i + 1)
  {
    var pc := s.active[i];
    var t := if Consumes(program[pc], codePoint) then EnqueueFixed(s, pc + 1) else s;
    if Consumes(program[pc], codePoint) && pc + 1 !in s.enqueued {
      ElemsSnoc(s.next, pc + 1);
    }
    assert Elems(t.next) == Elems(s.next) + (if Consumes(program[pc], codePoint) then {pc + 1} else {});
    assert Successors(program, pc) == {};
    WalkedQuietStep(program, codePoint, matched, longest, s, t, i);
  }

  /** A thread that is not at Success moves the walk on by one when its
      successors are in the new list and it hands on what it consumes. */
  lemma WalkedQuietStep(program: Program, codePoint: CodePoint, matched: Text, longest: Option<Text>, s: FixedState, t: FixedState, i: nat)
    requires i < |s.active| && Walked(program, codePoint, matched, longest, s, i)
    requires s.active[i] < |program| && !program[s.active[i]].Success?
    requires s.active <= t.active && t.spawned == Elems(t.active) && t.enqueued == Elems(t.next) && t.longest == s.longest
    requires forall target | target in Successors(program, s.active[i]) :: 0 <= target && target as nat in t.spawned
    requires Elems(t.next)
      == Elems(s.next) + (if Consumes(program[s.active[i]], codePoint) then {s.active[i] + 1} else {})
    ensures Walked(program, codePoint, matched, longest, t, i + 1)
  {
    var pc := s.active[i];
    PrefixKept(s.active, t.active, i);
    WalkedPrefix(s.active, i);
    AdvanceAdd(program, codePoint, Elems(s.active[..i]), pc);
    AcceptingAdd(program, Elems(s.active[..i]), pc);
    assert Elems(s.active) <= Elems(t.active);
  }

  lemma FixedStepWalked(program: Program, codePoint: CodePoint, matched: Text, longest: Option<Text>, s: FixedState, i: nat)
    requires i < |s.active| && Walked(program, codePoint, matched, longest, s, i)
    requires FixedStep(program, codePoint, matched, s, i).Ok?
    ensures Walked(program, codePoint, matched, longest, FixedStep(program, codePoint, matched, s, i).value, i + 1)
  {
    var instruction := program[s.active[i]];
    if instruction.Success? {
      SuccessStepWalked(program, codePoint, matched, longest, s, i);
    } else if instruction.Fork? || instruction.Jump? {
      BranchStepWalked(program, codePoint, matched, longest, s, i);
    } else {
      MatchStepWalked(program, codePoint, matched, longest, s, i);
    }
  }

  lemma {:induction false} FixedDrainWalked(program: Program, codePoint: CodePoint, matched: Text, longest: Option<Text>, s: FixedState, i: nat)
    requires Walked(program, codePoint, matched, longest, s, i)
    ensures var r := FixedDrain(program, codePoint, matched, s, i);
      r.Ok? ==> s.active <= r.value.active && Walked(program, codePoint, matched, longest, r.value, |r.value.active|)
    decreases |Span(0, Bound(program)) - s.spawned|, |s.active| - i
  {
    if i < |s.active| {
      var step := FixedStep(program, codePoint, matched, s, i);
      if step.Ok? {
        FixedStepGrows(program, codePoint, matched, s, i);
        FixedStepWalked(program, codePoint, matched, longest, s, i);
        FixedDrainWalked(program, codePoint, matched, longest, step.value, i + 1);
      }
    }
  }

  /** A tick walks the closure of its threads under Fork and Jump: every
      thread it walks is in the program, every successor of one is walked,
      it hands on exactly the successors of the threads that consume the
      code point, and it records the text matched so far exactly when one of
      them is at Success. */
  lemma TickComputes(program: Program, codePoint: CodePoint, matched: Text, active: seq<nat>, longest: Option<Text>)
    ensures var r := FixedTick(program, codePoint, matched, active, longest);
      r.Ok? ==>
        && active <= r.value.active
        && (forall k | 0 <= k < |r.value.active| :: r.value.active[k] < |program|)
        && EpsClosed(program, Elems(r.value.active))
        && Elems(r.value.next) == Advance(program, codePoint, Elems(r.value.active))
        && r.value.longest == if Accepting(program, Elems(r.value.active)) then Record(longest, matched) else longest
  {
    var s := Start(active, longest);
    assert Walked(program, codePoint, matched, longest, s, 0);
    FixedDrainWalked(program, codePoint, matched, longest, s, 0);
    var r := FixedTick(program, codePoint, matched, active, longest);
    if r.Ok? {
      var t := r.value;
      assert t.active[..|t.active|] == t.active;
      forall pc | pc in Elems(t.active) && pc < |program|
        ensures forall target | target in Successors(program, pc) :: 0 <= target && target as nat in Elems(t.active)
      {
        var k :| 0 <= k < |t.active| && t.active[k] == pc;
      }
    }
  }

  /** The closure is the least one: a set closed under Fork and Jump that
      holds the starting threads holds every thread the tick walks. */
  lemma {:induction false} FixedDrainWithin(program: Program, codePoint: CodePoint, matched: Text, s: FixedState, i: nat, pcs: set<nat>)
    requires i <= |s.active| && Elems(s.active) <= pcs && EpsClosed(program, pcs)
    ensures var r := FixedDrain(program, codePoint, matched, s, i);
      r.Ok? ==> Elems(r.value.active) <= pcs
    decreases |Span(0, Bound(program)) - s.spawned|, |s.active| - i
  {
    if i < |s.active| {
      var step := FixedStep(program, codePoint, matched, s, i);
      if step.Ok? {
        FixedStepWithin(program, codePoint, matched, s, i, pcs);
        FixedStepGrows(program, codePoint, matched, s, i);
        FixedDrainWithin(program, codePoint, matched, step.value, i + 1, pcs);
      }
    }
  }

  lemma FixedStepWithin(program: Program, codePoint: CodePoint, matched: Text, s: FixedState, i: nat, pcs: set<nat>)
    requires i < |s.active| && Elems(s.active) <= pcs && EpsClosed(program, pcs)
    requires FixedStep(program, codePoint, matched, s, i).Ok?
    ensures Elems(FixedStep(program, codePoint, matched, s, i).value.active) <= pcs
  {
    var pc := s.active[i];
    var instruction := program[pc];
    if instruction.Fork? || instruction.Jump? {
      assert pc in Elems(s.active);
      assert pc + instruction.offset in Successors(program, pc);
      assert instruction.Fork? ==> pc + 1 in Successors(program, pc);
      var taken := if instruction.Fork? then SpawnFixed(s, pc + 1) else s;
      ElemsSpawn(s, pc + 1);
      ElemsSpawn(taken, pc + instruction.offset);
    }
  }

  lemma ElemsSpawn(s: FixedState, target: nat)
    ensures Elems(SpawnFixed(s, target).active) <= Elems(s.active) + {target}
  {
    if target !in s.spawned {
      ElemsSnoc(s.active, target);
    }
  }

  lemma TickLeast(program: Program, codePoint: CodePoint, matched: Text, active: seq<nat>, longest: Option<Text>, pcs: set<nat>)
    requires Elems(active) <= pcs && EpsClosed(program, pcs)
    ensures var r := FixedTick(program, codePoint, matched, active, longest);
      r.Ok? ==> Elems(r.value.active) <= pcs
  {
    FixedDrainWithin(program, codePoint, matched, Start(active, longest), 0, pcs);
  }

  /** On a well-formed program every thread stays inside it, so no tick fails. */
  lemma {:induction false} FixedDrainOk(program: Program, codePoint: CodePoint, matched: Text, s: FixedState, i: nat)
    requires Regex3Builder.WellFormed(program)
    requires i <= |s.active| && forall k | 0 <= k < |s.active| :: s.active[k] < |program|
    ensures FixedDrain(program, codePoint, matched, s, i).Ok?
    decreases |Span(0, Bound(program)) - s.spawned|, |s.active| - i
  {
    if i < |s.active| {
      FixedStepOk(program, codePoint, matched, s, i);
      FixedStepGrows(program, codePoint, matched, s, i);
      FixedDrainOk(program, codePoint, matched, FixedStep(program, codePoint, matched, s, i).value, i + 1);
    }
  }

  lemma FixedStepOk(program: Program, codePoint: CodePoint, matched: Text, s: FixedState, i: nat)
    requires Regex3Builder.WellFormed(program)
    requires i < |s.active| && forall k | 0 <= k < |s.active| :: s.active[k] < |program|
    ensures var r := FixedStep(program, codePoint, matched, s, i);
      r.Ok? && forall k | 0 <= k < |r.value.active| :: r.value.active[k] < |program|
  {
    var pc := s.active[i];
    var instruction := program[pc];
    if instruction.Fork? || instruction.Jump? {
      var taken := if instruction.Fork? then SpawnFixed(s, pc + 1) else s;
      assert forall k | 0 <= k < |taken.active| :: taken.active[k] < |program|;
    }
  }

  lemma TickOk(program: Program, codePoint: CodePoint, matched: Text, active: seq<nat>, longest: Option<Text>)
    requires Regex3Builder.WellFormed(program)
    requires forall k | 0 <= k < |active| :: active[k] < |program|
    ensures var r := FixedTick(program, codePoint, matched, active, longest);
      r.Ok? && forall k | 0 <= k < |r.value.next| :: r.value.next[k] < |program|
  {
    FixedDrainOk(program, codePoint, matched, Start(active, longest), 0);
    TickComputes(program, codePoint, matched, active, longest);
    var t := FixedTick(program, codePoint, matched, active, longest).value;
    forall k | 0 <= k < |t.next|
      ensures t.next[k] < |program|
    {
      assert t.next[k] in Advance(program, codePoint, Elems(t.active));
    }
  }

  lemma ElemsEmpty(s: seq<nat>)
    ensures Elems(s) == {} ==> s == []
  {
    if s != [] {
      assert s[0] in Elems(s);
    }
  }

  /** At the end of the input nothing is handed on. */
  lemma TickAtEof(program: Program, matched: Text, active: seq<nat>, longest: Option<Text>)
    ensures var r := FixedTick(program, EOF, matched, active, longest);
      r.Ok? ==> r.value.next == []
  {
    TickComputes(program, EOF, matched, active, longest);
    var r := FixedTick(program, EOF, matched, active, longest);
    if r.Ok? {
      assert Advance(program, EOF, Elems(r.value.active)) == {};
      ElemsEmpty(r.value.next);
    }
  }

  // ---------------------------------------------------------------------
  // The whole run
  // ---------------------------------------------------------------------

  /** The run from a tick whose threads are `active`, reading `text` from
      `index`, as `run` goes: tick after tick until no thread is left. */
  ghost function FixedOutcome(program: Program, text: Text, index: nat, active: seq<nat>, matched: Text, longest: Option<Text>): Result<Option<Text>>
    requires index <= |text|
    decreases |text| - index, |active|
  {
    if active == [] then Ok(longest)
    else
      var read := ReadAt(text, index);
      var codePoint :- read.0;
      var t :- FixedTick(program, codePoint, matched, active, longest);
      TickAtEof(program, matched, active, longest);
      FixedOutcome(program, text, read.1, t.next, Appended(matched, codePoint), t.longest)
  }

  /** What the corrected `run` answers for `text`. */
  ghost function FixedMatched(program: Program, text: Text): Result<Option<Text>>
  {
    FixedOutcome(program, text, 0, [0], [], None)
  }

  /** On a well-formed program the corrected run fails only on a code point
      that `CodePoint.of` refuses: a Range thread alive at the end of the
      input no longer throws. */
  lemma {:induction false} FixedOutcomeOk(program: Program, text: Text, index: nat, active: seq<nat>, matched: Text, longest: Option<Text>)
    requires Regex3Builder.WellFormed(program) && index <= |text|
    requires forall k | 0 <= k < |active| :: active[k] < |program|
    requires Regex3Builder.AllDefined(CodePointsOf(text[index..]))
    ensures FixedOutcome(program, text, index, active, matched, longest).Ok?
    decreases |text| - index, |active|
  {
    if active != [] {
      var read := ReadAt(text, index);
      ReadDefined(text, index);
      var codePoint := read.0.value;
      TickOk(program, codePoint, matched, active, longest);
      TickAtEof(program, matched, active, longest);
      var t := FixedTick(program, codePoint, matched, active, longest).value;
      FixedOutcomeOk(program, text, read.1, t.next, Appended(matched, codePoint), t.longest);
    }
  }

  /** Reading a text whose code points are all defined succeeds and leaves a
      rest whose code points are all defined. */
  lemma ReadDefined(text: Text, index: nat)
    requires index <= |text| && Regex3Builder.AllDefined(CodePointsOf(text[index..]))
    ensures ReadAt(text, index).0.Ok?
    ensures Regex3Builder.AllDefined(CodePointsOf(text[ReadAt(text, index).1..]))
  {
    if index < |text| {
      CodePointsOfAt(text, index);
      assert IsDefined(CodePointsOf(text[index..])[0]);
      assert CodePointsOf(text[ReadAt(text, index).1..]) == CodePointsOf(text[index..])[1..];
    }
  }

  // ---------------------------------------------------------------------
  // The three faults, on small programs
  // ---------------------------------------------------------------------

  /** `concat(optional(text("a")), text("a")).build()`. */
  function OptionalThenSame(): (p: Program)
    ensures p == Regex3Builder.OptionalOf(Regex3Builder.Singles([97])) + Regex3Builder.Singles([97]) + [Success]
    ensures Regex3Builder.WellFormed(p)
  {
    [Fork(2), Single(CodePoint(97)), Single(CodePoint(97)), Success]
  }

  /** `codePoints(a).build()`, a Range of the one code point `a`. */
  function RangeOfA(): (p: Program)
    ensures Regex3Builder.WellFormed(p) && |p| == 2 && p[0].Range? && p[0].codePoints == {97}
  {
    [Range({97}), Success]
  }

  /** As written, the thread that reads the first `a` at pc 1 is dropped:
      pc 2 was already visited in that tick, so "aa" matches only "a". */
  lemma AsWrittenDropsThread()
    requires IsDefined(97)
    ensures NoEofSingle(OptionalThenSame())
    ensures Matched(OptionalThenSame(), [97, 97]) == Ok(Some([97]))
  {
    AsWrittenRunOf([97, 97]);
  }

  /** The same run, with the text as a parameter so that its steps are
      unfolded one at a time. */
  lemma AsWrittenRunOf(text: Text)
    requires IsDefined(97) && text == [97, 97]
    ensures NoEofSingle(OptionalThenSame())
    ensures Matched(OptionalThenSame(), text) == Ok(Some([97]))
  {
    AsWrittenRunFirst(text);
    AsWrittenRunSecond(text);
  }

  /** The first tick reads the first `a` and leaves one thread, at Success. */
  lemma AsWrittenRunFirst(text: Text)
    requires IsDefined(97) && text == [97, 97]
    ensures NoEofSingle(OptionalThenSame())
    ensures Outcome(OptionalThenSame(), text, 0, [0], [], None) == Outcome(OptionalThenSame(), text, 1, [3], [97], None)
  {
    AsWrittenFirstTick();
    ReadPlain(text, 0);
    AppendedPlain([], 97);
    var none: Text := [];
    assert none + [97] == [97];
    OutcomeStep(OptionalThenSame(), text, 0, [0], [], None, CodePoint(97), 1, TickState([0, 1, 2], {1, 2, 3}, [3], None));
  }

  /** The second tick records "a" and hands nothing on, so the run stops. */
  lemma AsWrittenRunSecond(text: Text)
    requires IsDefined(97) && text == [97, 97]
    ensures NoEofSingle(OptionalThenSame())
    ensures Outcome(OptionalThenSame(), text, 1, [3], [97], None) == Ok(Some([97]))
  {
    var a := CodePoint(97);
    AsWrittenSecondTick();
    ReadPlain(text, 1);
    OutcomeStep(OptionalThenSame(), text, 1, [3], [97], None, a, 2, TickState([3], {}, [], Some([97])));
    assert Outcome(OptionalThenSame(), text, 2, [], Appended([97], a), Some([97])) == Ok(Some([97]));
  }

  /** A unit below the surrogates that `CodePoint.of` accepts is read alone. */
  lemma ReadPlain(text: Text, index: nat)
    requires index < |text| && text[index] < 0xD800 && IsDefined(text[index])
    ensures ReadAt(text, index) == (Ok(CodePoint(text[index])), index + 1)
  {
  }

  lemma AppendedPlain(matched: Text, c: int)
    requires 0 <= c < 0xD800
    ensures Appended(matched, CodePoint(c)) == matched + [c]
  {
    assert ToChars(c) == [c];
  }

  /** One tick of `run`: the outcome is the outcome from the tick's result. */
  lemma OutcomeStep(program: Program, text: Text, index: nat, active: seq<int>, matched: Text, longest: Option<Text>,
                    codePoint: CodePoint, next: nat, t: TickState)
    requires index <= |text| && NoEofSingle(program) && active != []
    requires ReadAt(text, index) == (Ok(codePoint), next)
    requires Drain(program, codePoint, matched, TickState(active, {}, [], longest), 0) == Ok(t)
    ensures Outcome(program, text, index, active, matched, longest)
      == Outcome(program, text, next, t.next, Appended(matched, codePoint), t.longest)
  {
  }

  lemma AsWrittenFirstTick()
    ensures Drain(OptionalThenSame(), CodePoint(97), [], TickState([0], {}, [], None), 0)
      == Ok(TickState([0, 1, 2], {1, 2, 3}, [3], None))
  {
    var p := OptionalThenSame();
    var a := CodePoint(97);
    var s0 := TickState([0], {}, [], None);
    var s1 := TickState([0, 1, 2], {1, 2}, [], None);
    var s2 := TickState([0, 1, 2], {1, 2, 3}, [3], None);
    assert p[0] == Fork(2) && p[1] == Single(a) && p[2] == Single(a);
    assert Spawn(s0, 1) == TickState([0, 1], {1}, [], None);
    assert Spawn(TickState([0, 1], {1}, [], None), 2) == s1;
    assert Step(p, a, [], s0, 0) == Ok(s1);
    assert Step(p, a, [], s1, 1) == Ok(s1);
    assert Enqueue(s1, 3) == s2;
    assert Step(p, a, [], s1, 2) == Ok(s2);
    assert Drain(p, a, [], s2, 3) == Ok(s2);
    assert Drain(p, a, [], s1, 2) == Ok(s2);
    assert Drain(p, a, [], s1, 1) == Ok(s2);
  }

  lemma AsWrittenSecondTick()
    ensures Drain(OptionalThenSame(), CodePoint(97), [97], TickState([3], {}, [], None), 0)
      == Ok(TickState([3], {}, [], Some([97])))
  {
    var p := OptionalThenSame();
    var s0 := TickState([3], {}, [], None);
    assert Step(p, CodePoint(97), [97], s0, 0) == Ok(s0.(longest := Some([97])));
  }

  /** Corrected, both `a`s are read and "aa" matches whole. */
  lemma FixedKeepsThread()
    requires IsDefined(97)
    ensures FixedMatched(OptionalThenSame(), [97, 97]) == Ok(Some([97, 97]))
  {
    var p := OptionalThenSame();
    var text: Text := [97, 97];
    FixedFirstTick();
    FixedSecondTick();
    FixedLastTick();
    assert ReadAt(text, 0) == (Ok(CodePoint(97)), 1);
    assert ReadAt(text, 1) == (Ok(CodePoint(97)), 2);
    assert ReadAt(text, 2) == (Ok(EOF), 2);
    assert Appended([], CodePoint(97)) == [97];
    assert Appended([97], CodePoint(97)) == [97, 97];
    assert Appended([97, 97], EOF) == [97, 97];
    assert FixedOutcome(p, text, 2, [], [97, 97], Some([97, 97])) == Ok(Some([97, 97]));
    assert FixedOutcome(p, text, 2, [3], [97, 97], Some([97])) == Ok(Some([97, 97]));
    assert FixedOutcome(p, text, 1, [2, 3], [97], None) == Ok(Some([97, 97]));
  }

  lemma FixedFirstTick()
    ensures FixedTick(OptionalThenSame(), CodePoint(97), [], [0], None)
      == Ok(FixedState([0, 1, 2], {0, 1, 2}, [2, 3], {2, 3}, None))
  {
    var p := OptionalThenSame();
    var a := CodePoint(97);
    assert Elems([0]) == {0};
    var s0 := FixedState([0], {0}, [], {}, None);
    var s1 := FixedState([0, 1, 2], {0, 1, 2}, [], {}, None);
    var s2 := FixedState([0, 1, 2], {0, 1, 2}, [2], {2}, None);
    var s3 := FixedState([0, 1, 2], {0, 1, 2}, [2, 3], {2, 3}, None);
    assert p[0] == Fork(2) && p[1] == Single(a) && p[2] == Single(a);
    assert SpawnFixed(s0, 1) == FixedState([0, 1], {0, 1}, [], {}, None);
    assert SpawnFixed(FixedState([0, 1], {0, 1}, [], {}, None), 2) == s1;
    assert Branch(s0, 0, Fork(2)) == s1;
    assert EnqueueFixed(s1, 2) == s2;
    assert EnqueueFixed(s2, 3) == s3;
    assert FixedStep(p, a, [], s0, 0) == Ok(s1);
    assert FixedStep(p, a, [], s1, 1) == Ok(s2);
    assert FixedStep(p, a, [], s2, 2) == Ok(s3);
    assert FixedDrain(p, a, [], s3, 3) == Ok(s3);
    assert FixedDrain(p, a, [], s2, 2) == Ok(s3);
    assert FixedDrain(p, a, [], s1, 1) == Ok(s3);
  }

  lemma FixedSecondTick()
    ensures FixedTick(OptionalThenSame(), CodePoint(97), [97], [2, 3], None)
      == Ok(FixedState([2, 3], {2, 3}, [3], {3}, Some([97])))
  {
    var p := OptionalThenSame();
    var a := CodePoint(97);
    assert Elems([2, 3]) == {2, 3};
    var s0 := FixedState([2, 3], {2, 3}, [], {}, None);
    var s1 := FixedState([2, 3], {2, 3}, [3], {3}, None);
    var s2 := FixedState([2, 3], {2, 3}, [3], {3}, Some([97]));
    assert p[2] == Single(a) && p[3] == Success;
    assert EnqueueFixed(s0, 3) == s1;
    assert FixedStep(p, a, [97], s0, 0) == Ok(s1);
    assert FixedStep(p, a, [97], s1, 1) == Ok(s2);
    assert FixedDrain(p, a, [97], s2, 2) == Ok(s2);
    assert FixedDrain(p, a, [97], s1, 1) == Ok(s2);
  }

  lemma FixedLastTick()
    ensures FixedTick(OptionalThenSame(), EOF, [97, 97], [3], Some([97]))
      == Ok(FixedState([3], {3}, [], {}, Some([97, 97])))
  {
    var p := OptionalThenSame();
    assert Elems([3]) == {3};
    var s0 := FixedState([3], {3}, [], {}, Some([97]));
    assert FixedStep(p, EOF, [97, 97], s0, 0) == Ok(s0.(longest := Some([97, 97])));
  }

  /** As written, a Range thread alive at the end of the input fails the run. */
  lemma AsWrittenRangeAtEnd()
    ensures NoEofSingle(RangeOfA())
    ensures Matched(RangeOfA(), []) == Err(INDEX_OUT_OF_BOUNDS)
  {
    var s0 := TickState([0], {}, [], None);
    assert Step(RangeOfA(), EOF, [], s0, 0) == Err(INDEX_OUT_OF_BOUNDS);
    assert ReadAt([], 0) == (Ok(EOF), 0);
  }

  /** Corrected, the Range thread just does not match, and nothing is found. */
  lemma FixedRangeAtEnd()
    ensures FixedMatched(RangeOfA(), []) == Ok(None)
  {
    assert Elems([0]) == {0};
    var s0 := FixedState([0], {0}, [], {}, None);
    assert FixedStep(RangeOfA(), EOF, [], s0, 0) == Ok(s0);
    assert FixedTick(RangeOfA(), EOF, [], [0], None) == Ok(s0);
    assert ReadAt([], 0) == (Ok(EOF), 0);
  }

  /** `zeroOrMore(codePoint(CodePoint.EOF)).build()`: a loop around a Single
      that waits for the end-of-input marker itself. */
  function EofLoop(): (p: Program)
    ensures p == Regex3Builder.ZeroOrMoreOf([Single(EOF)]) + [Success]
    ensures Regex3Builder.WellFormed(p) && !NoEofSingle(p)
  {
    var p := [Fork(3), Single(EOF), Jump(-2), Success];
    assert p[1] == Single(EOF);
    p
  }

  /** `n` passes of the `while` loop of `run` as written, from a tick whose
      threads are `active`, stopping early once no thread is left: the index,
      the threads, the matched text and the longest match after them. Unlike
      `Outcome`, it takes any program, since it stops after `n` passes. */
  ghost function Passes(program: Program, text: Text, index: nat, active: seq<int>, matched: Text, longest: Option<Text>, n: nat)
    : Result<(nat, seq<int>, Text, Option<Text>)>
    requires index <= |text|
    decreases n
  {
    if n == 0 || active == [] then Ok((index, active, matched, longest))
    else
      var read := ReadAt(text, index);
      var codePoint :- read.0;
      var t :- Drain(program, codePoint, matched, TickState(active, {}, [], longest), 0);
      Passes(program, text, read.1, t.next, Appended(matched, codePoint), t.longest, n - 1)
  }

  /** The first tick at the end of the input: the Fork reaches the Single,
      which matches EOF and queues the Jump, and the Success records "". */
  lemma AsWrittenEofFirstTick(matched: Text)
    ensures Drain(EofLoop(), EOF, matched, TickState([0], {}, [], None), 0)
      == Ok(TickState([0, 1, 3], {1, 2, 3}, [2], Some(matched)))
  {
    var p := EofLoop();
    var s0 := TickState([0], {}, [], None);
    var s1 := TickState([0, 1, 3], {1, 3}, [], None);
    var s2 := TickState([0, 1, 3], {1, 2, 3}, [2], None);
    var s3 := TickState([0, 1, 3], {1, 2, 3}, [2], Some(matched));
    assert Spawn(s0, 1) == TickState([0, 1], {1}, [], None);
    assert Spawn(TickState([0, 1], {1}, [], None), 3) == s1;
    assert Step(p, EOF, matched, s0, 0) == Ok(s1);
    assert Enqueue(s1, 2) == s2;
    assert Step(p, EOF, matched, s1, 1) == Ok(s2);
    assert Step(p, EOF, matched, s2, 2) == Ok(s3);
    assert Drain(p, EOF, matched, s3, 3) == Ok(s3);
    assert Drain(p, EOF, matched, s2, 2) == Ok(s3);
    assert Drain(p, EOF, matched, s1, 1) == Ok(s3);
  }

  /** Every later tick at the end of the input: the Jump leads back to the
      Fork, and the Single queues the Jump again. */
  lemma AsWrittenEofTick(matched: Text, longest: Option<Text>)
    ensures Drain(EofLoop(), EOF, matched, TickState([2], {}, [], longest), 0)
      == Ok(TickState([2, 0, 1, 3], {0, 1, 2, 3}, [2], Record(longest, matched)))
  {
    var p := EofLoop();
    var s0 := TickState([2], {}, [], longest);
    var s1 := TickState([2, 0], {0}, [], longest);
    var s2 := TickState([2, 0, 1, 3], {0, 1, 3}, [], longest);
    var s3 := TickState([2, 0, 1, 3], {0, 1, 2, 3}, [2], longest);
    var s4 := TickState([2, 0, 1, 3], {0, 1, 2, 3}, [2], Record(longest, matched));
    assert p[2] == Jump(-2) && Spawn(s0, 0) == s1;
    assert Step(p, EOF, matched, s0, 0) == Ok(s1);
    assert Spawn(s1, 1) == TickState([2, 0, 1], {0, 1}, [], longest);
    assert Spawn(TickState([2, 0, 1], {0, 1}, [], longest), 3) == s2;
    assert Step(p, EOF, matched, s1, 1) == Ok(s2);
    assert Enqueue(s2, 2) == s3;
    assert Step(p, EOF, matched, s2, 2) == Ok(s3);
    assert Step(p, EOF, matched, s3, 3) == Ok(s4);
    assert Drain(p, EOF, matched, s4, 4) == Ok(s4);
    assert Drain(p, EOF, matched, s3, 3) == Ok(s4);
    assert Drain(p, EOF, matched, s2, 2) == Ok(s4);
    assert Drain(p, EOF, matched, s1, 1) == Ok(s4);
  }

  /** Once the text is used up, every pass reads EOF again and leaves the one
      thread at the Jump, so the state of the loop repeats. */
  lemma {:induction false} AsWrittenEofRepeats(text: Text, matched: Text, longest: Option<Text>, n: nat)
    ensures var r := Passes(EofLoop(), text, |text|, [2], matched, longest, n);
      r.Ok? && r.value.0 == |text| && r.value.1 == [2] && r.value.2 == matched
    decreases n
  {
    if n > 0 {
      AsWrittenEofTick(matched, longest);
      assert ReadAt(text, |text|) == (Ok(EOF), |text|);
      AsWrittenEofRepeats(text, matched, Record(longest, matched), n - 1);
    }
  }

  /** As written, `zeroOrMore(codePoint(CodePoint.EOF))` run on "" never
      ends: after any number of passes a thread is still active. */
  lemma AsWrittenEofNeverEnds(n: nat)
    ensures var r := Passes(EofLoop(), [], 0, [0], [], None, n + 1);
      r.Ok? && r.value.1 == [2]
  {
    AsWrittenEofFirstTick([]);
    assert ReadAt([], 0) == (Ok(EOF), 0);
    AsWrittenEofRepeats([], [], Some([]), n);
  }

  /** Corrected, the Single does not match the end of the input, the Success
      records "" and the run ends with the empty match. */
  lemma FixedEofLoopEnds()
    ensures FixedMatched(EofLoop(), []) == Ok(Some([]))
  {
    var p := EofLoop();
    var none: Text := [];
    assert Elems([0]) == {0};
    var s0 := FixedState([0], {0}, [], {}, None);
    var s1 := FixedState([0, 1, 3], {0, 1, 3}, [], {}, None);
    var s2 := FixedState([0, 1, 3], {0, 1, 3}, [], {}, Some(none));
    assert SpawnFixed(s0, 1) == FixedState([0, 1], {0, 1}, [], {}, None);
    assert SpawnFixed(FixedState([0, 1], {0, 1}, [], {}, None), 3) == s1;
    assert Branch(s0, 0, Fork(3)) == s1;
    assert FixedStep(p, EOF, none, s0, 0) == Ok(s1);
    assert FixedStep(p, EOF, none, s1, 1) == Ok(s1);
    assert FixedStep(p, EOF, none, s1, 2) == Ok(s2);
    assert FixedDrain(p, EOF, none, s2, 3) == Ok(s2);
    assert FixedDrain(p, EOF, none, s1, 2) == Ok(s2);
    assert FixedDrain(p, EOF, none, s1, 1) == Ok(s2);
    assert FixedTick(p, EOF, none, [0], None) == Ok(s2);
    assert ReadAt([], 0) == (Ok(EOF), 0);
    assert Appended(none, EOF) == none;
    assert FixedOutcome(p, [], 0, [], none, Some(none)) == Ok(Some(none));
  }
}
