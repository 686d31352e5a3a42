/** `regex3.Regex`'s matcher: `CodePointSourceString`, `VirtualMachine.run` and
    `Regex.match`. The virtual machine walks one list of threads per code point;
    a thread is its program counter (`VmThread`). Within a tick a single bit set
    guards both the list being walked (grown by Fork and Jump) and the list for
    the next tick (grown by Single and Range). */
module Regex3Vm {
  import opened Wrappers
  import Utf16
  import opened JavaStrings
  import opened Regex3CodePoint
  import opened Regex3CodePoints
  import opened Regex3Instruction

  type Program = seq<Instruction>

  /** A Java `String`, as its UTF-16 code units. */
  type Text = seq<Utf16.CodeUnit>

  // ---------------------------------------------------------------------
  // CodePointSourceString
  // ---------------------------------------------------------------------

  /** What `nextCodePoint` yields at `index`, and the index after it. The index
      moves on before `CodePoint.of` checks the value, and EOF comes back for
      ever once the text is used up. */
  function ReadAt(text: Text, index: nat): (r: (Result<CodePoint>, nat))
    requires index <= |text|
    ensures index <= r.1 <= |text|
    ensures r.1 == index <==> index == |text|
    ensures index == |text| ==> r.0 == Ok(EOF)
    ensures index < |text| ==> r.0 == OfInt(CodePointAt(text, index))
    ensures index < |text| ==> text[index..r.1] == ToChars(CodePointAt(text, index))
  {
    if index < |text| then
      var codePoint := CodePointAt(text, index);
      ToCharsAt(text, index);
      (OfInt(codePoint), index + CharCount(codePoint))
    else (Ok(EOF), index)
  }

  class CodePointSourceString {
    const text: Text
    var index: nat

    ghost predicate Valid()
      reads this
    {
      index <= |text|
    }

    constructor(text: Text)
      ensures this.text == text && index == 0 && Valid()
    {
      this.text := text;
      index := 0;
    }

    /** `nextCodePoint()`. */
    method NextCodePoint() returns (r: Result<CodePoint>)
      requires Valid()
      modifies this
      ensures Valid() && (r, index) == ReadAt(text, old(index))
    {
      if index < |text| {
        var codePoint := CodePointAt(text, index);
        index := index + CharCount(codePoint);
        ToCharsAt(text, old(index));
        return OfInt(codePoint);
      } else {
        return Ok(EOF);
      }
    }
  }

  // ---------------------------------------------------------------------
  // One tick, as a function
  // ---------------------------------------------------------------------

  /** How far a Fork or Jump moves; every other instruction moves on by one. */
  function OffsetOf(instruction: Instruction): int
  {
    if instruction.Fork? || instruction.Jump? then instruction.offset else 1
  }

  /** A bound above every program counter a thread can be queued at. */
  function Bound(program: Program): (b: nat)
    ensures forall pc | 0 <= pc < |program| :: pc + 1 < b && pc + OffsetOf(program[pc]) < b
    decreases |program|
  {
    if program == [] then 0
    else
      var last := |program| - 1;
      var below := Bound(program[..last]);
      assert forall pc | 0 <= pc < last :: program[pc] == program[..last][pc];
      var target := last + OffsetOf(program[last]);
      var here := if target + 1 > last + 2 then target + 1 else last + 2;
      if here > below then here else below
  }

  /** The state of a tick: `activeThreads` (walked while it grows),
      `existingThreads`, `newThreads`, and the longest matched text so far. */
  datatype TickState = TickState(active: seq<int>, existing: set<nat>, next: seq<int>, longest: Option<Text>)

  /** A Fork or Jump target joins the list being walked, unless the bit set
      already has it. */
  function Spawn(s: TickState, target: nat): (r: TickState)
    ensures r.next == s.next && r.longest == s.longest
  {
    if target in s.existing then s
    else s.(active := s.active + [target], existing := s.existing + {target})
  }

  /** A matched thread's successor joins the next tick's list, unless the bit
      set already has it. */
  function Enqueue(s: TickState, target: nat): (r: TickState)
    ensures r.active == s.active && r.longest == s.longest
  {
    if target in s.existing then s
    else s.(next := s.next + [target], existing := s.existing + {target})
  }

  /** A Success thread: the text read before this tick replaces the best so far
      only when it is strictly longer. */
  function Record(longest: Option<Text>, matched: Text): (r: Option<Text>)
    ensures r == longest || r == Some(matched)
    ensures r.Some? && longest.Some? ==> |r.value| >= |longest.value|
    ensures r.Some?
  {
    if longest.None? || |matched| > |longest.value| then Some(matched) else longest
  }

  /** The work on thread `i` of the tick that read `codePoint`. */
  function Step(program: Program, codePoint: CodePoint, matched: Text, s: TickState, i: nat): Result<TickState>
    requires i < |s.active|
  {
    var pc := s.active[i];
    if pc < 0 || pc >= |program| then Err(INDEX_OUT_OF_BOUNDS)
    else
      match program[pc]
      case Single(c) => if c == codePoint then Ok(Enqueue(s, pc + 1)) else Ok(s)
      case Range(members) =>
        if codePoint.value < 0 then Err(INDEX_OUT_OF_BOUNDS)
        else if codePoint.value in members then Ok(Enqueue(s, pc + 1))
        else Ok(s)
      case Success => Ok(s.(longest := Record(s.longest, matched)))
      case Fork(offset) =>
        // a negative target is out of the bit set's range
        if pc + offset < 0 then Err(INDEX_OUT_OF_BOUNDS)
        else Ok(Spawn(Spawn(s, pc + 1), pc + offset))
      case Jump(offset) =>
        if pc + offset < 0 then Err(INDEX_OUT_OF_BOUNDS)
        else Ok(Spawn(s, pc + offset))
  }

  /** `t` follows `s` in a tick: the walked list only grows at its end, and
      either nothing was queued or the bit set gained a member below `bound`. */
  ghost predicate Progress(s: TickState, t: TickState, bound: nat)
  {
    && s.active <= t.active
    && ((t.existing == s.existing && |t.active| == |s.active|)
        || |Span(0, bound) - t.existing| < |Span(0, bound) - s.existing|)
  }

  /** Adding a fresh member below the bound leaves fewer members to add. */
  lemma FewerLeft(e: set<nat>, target: nat, bound: nat)
    requires target < bound && target !in e
    ensures |Span(0, bound) - (e + {target})| < |Span(0, bound) - e|
  {
    var left := Span(0, bound) - e;
    assert target in left;
    assert Span(0, bound) - (e + {target}) == left - {target};
    assert left == (left - {target}) + {target};
  }

  lemma ProgressTrans(s: TickState, t: TickState, u: TickState, bound: nat)
    requires Progress(s, t, bound) && Progress(t, u, bound)
    ensures Progress(s, u, bound)
  {
  }

  lemma SpawnProgress(s: TickState, target: nat, bound: nat)
    requires target < bound
    ensures Progress(s, Spawn(s, target), bound)
  {
    if target !in s.existing {
      FewerLeft(s.existing, target, bound);
    }
  }

  lemma EnqueueProgress(s: TickState, target: nat, bound: nat)
    requires target < bound
    ensures Progress(s, Enqueue(s, target), bound)
  {
    if target !in s.existing {
      FewerLeft(s.existing, target, bound);
    }
  }

  lemma StepProgress(program: Program, codePoint: CodePoint, matched: Text, s: TickState, i: nat)
    requires i < |s.active| && Step(program, codePoint, matched, s, i).Ok?
    ensures Progress(s, Step(program, codePoint, matched, s, i).value, Bound(program))
  {
    var instruction := program[s.active[i]];
    if instruction.Fork? {
      ForkProgress(program, codePoint, matched, s, i);
    } else if instruction.Jump? {
      JumpProgress(program, codePoint, matched, s, i);
    } else {
      MatchProgress(program, codePoint, matched, s, i);
    }
  }

  lemma ForkProgress(program: Program, codePoint: CodePoint, matched: Text, s: TickState, i: nat)
    requires i < |s.active| && Step(program, codePoint, matched, s, i).Ok?
    requires program[s.active[i]].Fork?
    ensures Progress(s, Step(program, codePoint, matched, s, i).value, Bound(program))
  {
    var pc := s.active[i];
    var bound := Bound(program);
    assert pc + 1 < bound && pc + OffsetOf(program[pc]) < bound;
    var offset := program[pc].offset;
    var forked := Spawn(s, pc + 1);
    var t := Spawn(forked, pc + offset);
    assert Step(program, codePoint, matched, s, i).value == t;
    SpawnProgress(s, pc + 1, bound);
    SpawnProgress(forked, pc + offset, bound);
    ProgressTrans(s, forked, t, bound);
  }

  lemma JumpProgress(program: Program, codePoint: CodePoint, matched: Text, s: TickState, i: nat)
    requires i < |s.active| && Step(program, codePoint, matched, s, i).Ok?
    requires program[s.active[i]].Jump?
    ensures Progress(s, Step(program, codePoint, matched, s, i).value, Bound(program))
  {
    var pc := s.active[i];
    var bound := Bound(program);
    assert pc + OffsetOf(program[pc]) < bound;
    var offset := program[pc].offset;
    assert Step(program, codePoint, matched, s, i).value == Spawn(s, pc + offset);
    SpawnProgress(s, pc + offset, bound);
  }

  /** Single, Range and Success threads queue at most their successor. */
  lemma MatchProgress(program: Program, codePoint: CodePoint, matched: Text, s: TickState, i: nat)
    requires i < |s.active| && Step(program, codePoint, matched, s, i).Ok?
    requires !program[s.active[i]].Fork? && !program[s.active[i]].Jump?
    ensures Progress(s, Step(program, codePoint, matched, s, i).value, Bound(program))
  {
    var pc := s.active[i];
    var bound := Bound(program);
    assert pc + 1 < bound;
    var t := Step(program, codePoint, matched, s, i).value;
    if t.existing != s.existing || t.active != s.active {
      assert t == Enqueue(s, pc + 1);
      EnqueueProgress(s, pc + 1, bound);
    }
  }

  /** The rest of a tick from thread `i` on: the `for` loop of `run`. */
  function Drain(program: Program, codePoint: CodePoint, matched: Text, s: TickState, i: nat): Result<TickState>
    requires i <= |s.active|
    decreases |Span(0, Bound(program)) - s.existing|, |s.active| - i
  {
    if i == |s.active| then Ok(s)
    else
      var t :- Step(program, codePoint, matched, s, i);
      StepProgress(program, codePoint, matched, s, i);
      Drain(program, codePoint, matched, t, i + 1)
  }

  /** No instruction waits for EOF itself. `Single(EOF)` can only be written
      with `codePoint(CodePoint.EOF)`; inside a loop it would keep `run` going
      for ever at the end of the input. */
  ghost predicate NoEofSingle(program: Program)
  {
    forall pc | 0 <= pc < |program| :: program[pc] != Single(EOF)
  }

  /** At EOF nothing is queued for a next tick: Single threads do not match it
      and Range threads fail. */
  lemma {:induction false} DrainAtEof(program: Program, matched: Text, s: TickState, i: nat)
    requires i <= |s.active| && NoEofSingle(program)
    ensures Drain(program, EOF, matched, s, i).Ok? ==> Drain(program, EOF, matched, s, i).value.next == s.next
    decreases |Span(0, Bound(program)) - s.existing|, |s.active| - i
  {
    if i < |s.active| {
      var step := Step(program, EOF, matched, s, i);
      if step.Ok? {
        StepProgress(program, EOF, matched, s, i);
        DrainAtEof(program, matched, step.value, i + 1);
      }
    }
  }

  /** The longest text only ever becomes the text matched so far. */
  lemma {:induction false} DrainLongest(program: Program, codePoint: CodePoint, matched: Text, s: TickState, i: nat)
    requires i <= |s.active|
    ensures var r := Drain(program, codePoint, matched, s, i);
      r.Ok? ==> r.value.longest == s.longest || r.value.longest == Some(matched)
    decreases |Span(0, Bound(program)) - s.existing|, |s.active| - i
  {
    if i < |s.active| {
      var step := Step(program, codePoint, matched, s, i);
      if step.Ok? {
        StepProgress(program, codePoint, matched, s, i);
        DrainLongest(program, codePoint, matched, step.value, i + 1);
      }
    }
  }

  // ---------------------------------------------------------------------
  // The whole run, as a function
  // ---------------------------------------------------------------------

  /** The text `appendCodePoint` adds for a code point read; EOF adds nothing. */
  function Appended(matched: Text, codePoint: CodePoint): Text
    requires codePoint == EOF || 0 <= codePoint.value <= MAX_CODE_POINT
  {
    if codePoint == EOF then matched else matched + ToChars(codePoint.value)
  }

  /** The run from a tick whose threads are `active`, reading `text` from `index`. */
  ghost function Outcome(program: Program, text: Text, index: nat, active: seq<int>, matched: Text, longest: Option<Text>): Result<Option<Text>>
    requires index <= |text| && NoEofSingle(program)
    decreases |text| - index, |active|
  {
    if active == [] then Ok(longest)
    else
      var read := ReadAt(text, index);
      var codePoint :- read.0;
      var t :- Drain(program, codePoint, matched, TickState(active, {}, [], longest), 0);
      DrainAtEof(program, matched, TickState(active, {}, [], longest), 0);
      Outcome(program, text, read.1, t.next, Appended(matched, codePoint), t.longest)
  }

  /** What `run` answers for `text`: it starts with the one thread at 0. */
  ghost function Matched(program: Program, text: Text): Result<Option<Text>>
    requires NoEofSingle(program)
  {
    Outcome(program, text, 0, [0], [], None)
  }

  /** Whatever the run answers is a prefix of the text from the start index:
      the matched text only ever grows by the units of the code points read. */
  lemma {:induction false} OutcomeIsPrefix(program: Program, text: Text, start: nat, index: nat, active: seq<int>, matched: Text, longest: Option<Text>)
    requires start <= index <= |text| && NoEofSingle(program)
    requires matched == text[start..index]
    requires longest.Some? ==> start + |longest.value| <= index && longest.value == text[start..start + |longest.value|]
    ensures var r := Outcome(program, text, index, active, matched, longest);
      r.Ok? && r.value.Some? ==> start + |r.value.value| <= |text| && r.value.value == text[start..start + |r.value.value|]
    decreases |text| - index, |active|
  {
    if active != [] {
      var read := ReadAt(text, index);
      if read.0.Ok? {
        var codePoint := read.0.value;
        var s := TickState(active, {}, [], longest);
        var drained := Drain(program, codePoint, matched, s, 0);
        if drained.Ok? {
          DrainAtEof(program, matched, s, 0);
          DrainLongest(program, codePoint, matched, s, 0);
          var t := drained.value;
          if codePoint != EOF {
            assert text[start..read.1] == text[start..index] + text[index..read.1];
          }
          OutcomeIsPrefix(program, text, start, read.1, t.next, Appended(matched, codePoint), t.longest);
        }
      }
    }
  }

  // ---------------------------------------------------------------------
  // The methods
  // ---------------------------------------------------------------------

  /** No two entries of `s` are equal. */
  ghost predicate Distinct(s: seq<int>)
  {
    forall i, j | 0 <= i < j < |s| :: s[i] != s[j]
  }

  /** The program counters in a list that are not negative. */
  ghost function Queued(s: seq<int>): set<nat>
  {
    set i | 0 <= i < |s| && s[i] >= 0 :: s[i] as nat
  }

  /** The bookkeeping of a tick whose walk started with `n` threads: the
      threads added to the walked list and the threads for the next tick are
      program counters, none twice, none in both lists, and the bit set holds
      exactly them. */
  ghost predicate Bookkept(n: nat, s: TickState)
  {
    && n <= |s.active|
    && Distinct(s.active[n..]) && Distinct(s.next)
    && Queued(s.active[n..]) !! Queued(s.next)
    && s.existing == Queued(s.active[n..]) + Queued(s.next)
    && (forall k | n <= k < |s.active| :: s.active[k] >= 0)
    && (forall k | 0 <= k < |s.next| :: s.next[k] >= 0)
  }

  /** A list of program counters gains `x` at its end. */
  lemma AppendOne(s: seq<int>, x: nat)
    requires Distinct(s) && x !in Queued(s)
    ensures Distinct(s + [x]) && Queued(s + [x]) == Queued(s) + {x}
  {
    assert forall k | 0 <= k < |s| :: s[k] != x by {
      forall k | 0 <= k < |s| ensures s[k] != x {
        assert s[k] < 0 || s[k] as nat in Queued(s);
      }
    }
    var t := s + [x];
    assert Queued(t) == Queued(s) + {x} by {
      forall y | y in Queued(t) ensures y in Queued(s) + {x} {
        var k :| 0 <= k < |t| && t[k] >= 0 && t[k] as nat == y;
        if k < |s| { assert s[k] == t[k]; }
      }
      forall y | y in Queued(s) + {x} ensures y in Queued(t) {
        if y == x { assert t[|s|] == x; }
        else {
          var k :| 0 <= k < |s| && s[k] >= 0 && s[k] as nat == y;
          assert t[k] == s[k];
        }
      }
    }
  }

  lemma SpawnBookkept(n: nat, s: TickState, target: nat)
    requires Bookkept(n, s)
    ensures Bookkept(n, Spawn(s, target))
  {
    if target !in s.existing {
      AppendOne(s.active[n..], target);
      assert (s.active + [target])[n..] == s.active[n..] + [target];
    }
  }

  lemma EnqueueBookkept(n: nat, s: TickState, target: nat)
    requires Bookkept(n, s)
    ensures Bookkept(n, Enqueue(s, target))
  {
    if target !in s.existing {
      AppendOne(s.next, target);
    }
  }

  lemma StepBookkept(program: Program, codePoint: CodePoint, matched: Text, n: nat, s: TickState, i: nat)
    requires i < |s.active| && Bookkept(n, s) && Step(program, codePoint, matched, s, i).Ok?
    ensures Bookkept(n, Step(program, codePoint, matched, s, i).value)
  {
    var pc := s.active[i];
    match program[pc]
    case Fork(offset) =>
      SpawnBookkept(n, s, pc + 1);
      SpawnBookkept(n, Spawn(s, pc + 1), pc + offset);
    case Jump(offset) =>
      SpawnBookkept(n, s, pc + offset);
    case Success =>
    case Single(_) =>
      EnqueueBookkept(n, s, pc + 1);
    case Range(_) =>
      EnqueueBookkept(n, s, pc + 1);
  }

  lemma {:induction false} DrainBookkept(program: Program, codePoint: CodePoint, matched: Text, n: nat, s: TickState, i: nat)
    requires i <= |s.active| && Bookkept(n, s)
    ensures var r := Drain(program, codePoint, matched, s, i);
      r.Ok? ==> Bookkept(n, r.value) && s.active <= r.value.active
    decreases |Span(0, Bound(program)) - s.existing|, |s.active| - i
  {
    if i < |s.active| {
      var step := Step(program, codePoint, matched, s, i);
      if step.Ok? {
        StepProgress(program, codePoint, matched, s, i);
        StepBookkept(program, codePoint, matched, n, s, i);
        DrainBookkept(program, codePoint, matched, n, step.value, i + 1);
      }
    }
  }

  /** A tick queues every program counter at most once: the threads Fork and
      Jump add to the walked list and the threads for the next tick are
      distinct, and the bit set holds exactly them. The walked list keeps the
      threads the tick began with as its prefix. */
  lemma TickQueuesOnce(program: Program, codePoint: CodePoint, matched: Text, active: seq<int>, longest: Option<Text>)
    ensures var r := Drain(program, codePoint, matched, TickState(active, {}, [], longest), 0);
      r.Ok? ==> active <= r.value.active && Bookkept(|active|, r.value)
  {
    var s := TickState(active, {}, [], longest);
    assert s.active[|active|..] == [];
    DrainBookkept(program, codePoint, matched, |active|, s, 0);
  }

  class VirtualMachine {
    const program: Program

    constructor(program: Program)
      ensures this.program == program
    {
      this.program := program;
    }

    /** `if (!existingThreads.get(target)) { threads.add(target);
        existingThreads.set(target); }`, the step every case of a tick shares. */
    static method AddThread(existingThreads: BitSet, threads: seq<int>, target: nat) returns (r: seq<int>)
      modifies existingThreads
      ensures target in old(existingThreads.bits) ==> r == threads && existingThreads.bits == old(existingThreads.bits)
      ensures target !in old(existingThreads.bits) ==> r == threads + [target] && existingThreads.bits == old(existingThreads.bits) + {target}
    {
      r := threads;
      var seen := existingThreads.Get(target).value;
      if !seen {
        r := threads + [target];
        var _ := existingThreads.Set(target);
      }
    }

    /** The body of the `for` loop of `run`: thread `i` of the walked list
        runs against `codePoint`. A target below zero is out of the bit set's
        range. */
    method RunThread(codePoint: CodePoint, matchedText: Text, existingThreads: BitSet,
                     activeThreads: seq<int>, newThreads: seq<int>, longestMatchedText: Option<Text>, i: nat)
      returns (r: Result<TickState>)
      requires i < |activeThreads|
      modifies existingThreads
      ensures r == Step(program, codePoint, matchedText, TickState(activeThreads, old(existingThreads.bits), newThreads, longestMatchedText), i)
      ensures r.Ok? ==> r.value.existing == existingThreads.bits
    {
      var active := activeThreads;
      var next := newThreads;
      var longest := longestMatchedText;
      var pc := active[i];
      if pc < 0 || pc >= |program| {
        return Err(INDEX_OUT_OF_BOUNDS);
      }
      match program[pc] {
        case Single(c) =>
          if c == codePoint {
            next := AddThread(existingThreads, next, pc + 1);
          }
        case Range(members) =>
          if codePoint.value < 0 {
            return Err(INDEX_OUT_OF_BOUNDS);
          }
          if codePoint.value in members {
            next := AddThread(existingThreads, next, pc + 1);
          }
        case Success =>
          longest := Record(longest, matchedText);
        case Fork(offset) =>
          active := AddThread(existingThreads, active, pc + 1);
          if pc + offset < 0 {
            return Err(INDEX_OUT_OF_BOUNDS);
          }
          active := AddThread(existingThreads, active, pc + offset);
        case Jump(offset) =>
          if pc + offset < 0 {
            return Err(INDEX_OUT_OF_BOUNDS);
          }
          active := AddThread(existingThreads, active, pc + offset);
      }
      return Ok(TickState(active, existingThreads.bits, next, longest));
    }

    /** The `for` loop of one tick of `run`: every thread of `activeThreads`,
        including those Fork and Jump add on the way, is run against
        `codePoint`. */
    method Tick(codePoint: CodePoint, matchedText: Text, activeThreads: seq<int>, longestMatchedText: Option<Text>)
      returns (r: Result<TickState>)
      ensures r == Drain(program, codePoint, matchedText, TickState(activeThreads, {}, [], longestMatchedText), 0)
    {
      var existingThreads := new BitSet();
      var active := activeThreads;
      var newThreads: seq<int> := [];
      var longest := longestMatchedText;
      var i := 0;
      while i < |active|
        invariant 0 <= i <= |active|
        invariant Drain(program, codePoint, matchedText, TickState(active, existingThreads.bits, newThreads, longest), i)
          == Drain(program, codePoint, matchedText, TickState(activeThreads, {}, [], longestMatchedText), 0)
        decreases |Span(0, Bound(program)) - existingThreads.bits|, |active| - i
      {
        ghost var before := TickState(active, existingThreads.bits, newThreads, longest);
        var after :- RunThread(codePoint, matchedText, existingThreads, active, newThreads, longest, i);
        StepProgress(program, codePoint, matchedText, before, i);
        active, newThreads, longest := after.active, after.next, after.longest;
        i := i + 1;
      }
      return Ok(TickState(active, existingThreads.bits, newThreads, longest));
    }

    /** `run(source)`: ticks until no thread is left, and answers the longest
        text read before a tick in which a Success thread ran. */
    method Run(source: CodePointSourceString) returns (r: Result<Option<Text>>)
      requires source.Valid() && NoEofSingle(program)
      modifies source
      ensures source.Valid()
      ensures r == Outcome(program, source.text, old(source.index), [0], [], None)
      ensures r.Ok? && r.value.Some? ==> var m := r.value.value;
        old(source.index) + |m| <= |source.text| && m == source.text[old(source.index)..old(source.index) + |m|]
    {
      ghost var start := source.index;
      OutcomeIsPrefix(program, source.text, start, start, [0], [], None);
      var longestMatchedText: Option<Text> := None;
      var matchedText: Text := [];
      var activeThreads: seq<int> := [0];
      while |activeThreads| > 0
        invariant source.Valid()
        invariant Outcome(program, source.text, source.index, activeThreads, matchedText, longestMatchedText)
          == Outcome(program, source.text, start, [0], [], None)
        decreases |source.text| - source.index, |activeThreads|
      {
        ghost var index := source.index;
        var codePoint :- source.NextCodePoint();
        var ticked :- Tick(codePoint, matchedText, activeThreads, longestMatchedText);
        DrainAtEof(program, matchedText, TickState(activeThreads, {}, [], longestMatchedText), 0);
        if codePoint != EOF {
          matchedText := matchedText + ToChars(codePoint.value);
        }
        activeThreads := ticked.next;
        longestMatchedText := ticked.longest;
      }
      return Ok(longestMatchedText);
    }
  }

  /** `Regex`: the program `build()` produced, and `match(text)`. */
  class Regex {
    const program: Program

    constructor(program: Program)
      ensures this.program == program
    {
      this.program := program;
    }

    /** `match(text)`: a fresh machine runs over a fresh source for `text`. */
    method Match(text: Text) returns (r: Result<Option<Text>>)
      requires NoEofSingle(program)
      ensures r == Matched(program, text)
      ensures r.Ok? && r.value.Some? ==> |r.value.value| <= |text| && text[..|r.value.value|] == r.value.value
    {
      var vm := new VirtualMachine(program);
      var source := new CodePointSourceString(text);
      r := vm.Run(source);
    }
  }
}
