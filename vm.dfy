/** The virtual machine of `regex/internal/impl`: `DefaultThread`,
    `DefaultVirtualMachineState`, the `execute` methods of the linked
    instructions and `DefaultVirtualMachine.match`.

    A thread carries its matched text as the code points it consumed; the
    UTF-16 string `toString` returns is their encoding. The input is read
    through the value view of a code-point stream (`Utf16.CpTape`), with
    `head()` and `tail()` as `CodePointStreams.HeadOf` and `TailOf`. */
module VirtualMachine {
  import opened Wrappers
  import opened Sets
  import opened Instructions
  import Utf16
  import CodePointStreams
  import JavaStrings

  /** What `List.get` throws for a program counter past the program. */
  const INDEX_OUT_OF_BOUNDS: string := "IndexOutOfBoundsException"
  /** The code point the state's constructor hands a first Start instruction. */
  const PRIMING_CODE_POINT: int := -2

  /** `DefaultThread`: a program counter and the text matched so far. */
  datatype Thread = Thread(programCounter: nat, matchedText: seq<int>)
  {
    /** `match` (here `Consume`): a thread at `nextProgramCounter` that has also consumed
        `matchedCodePoint`. */
    function Consume(nextProgramCounter: nat, matchedCodePoint: int): (r: Thread)
      ensures r.programCounter == nextProgramCounter
      ensures |r.matchedText| == |matchedText| + 1
      ensures r.matchedText[..|matchedText|] == matchedText && r.matchedText[|matchedText|] == matchedCodePoint
    {
      Thread(nextProgramCounter, matchedText + [matchedCodePoint])
    }

    /** `jump`: a thread at `nextProgramCounter` with the same text. */
    function Jump(nextProgramCounter: nat): (r: Thread)
      ensures r.programCounter == nextProgramCounter && r.matchedText == matchedText
    {
      Thread(nextProgramCounter, matchedText)
    }
  }

  /** The text of a thread as the Java `String` holds it: each code point
      written with `toChars`. After `match`, that string is the old one
      followed by `new String(toChars(matchedCodePoint))`. */
  lemma ConsumeText(thread: Thread, nextProgramCounter: nat, matchedCodePoint: int)
    requires forall k | 0 <= k < |thread.matchedText| :: 0 <= thread.matchedText[k] <= 0x10FFFF
    requires 0 <= matchedCodePoint <= 0x10FFFF
    ensures var next := thread.Consume(nextProgramCounter, matchedCodePoint).matchedText;
      forall k | 0 <= k < |next| :: 0 <= next[k] <= 0x10FFFF
    ensures JavaStrings.CharsOf(thread.Consume(nextProgramCounter, matchedCodePoint).matchedText)
      == JavaStrings.CharsOf(thread.matchedText) + JavaStrings.ToChars(matchedCodePoint)
  {
    JavaStrings.CharsOfSnoc(thread.matchedText, matchedCodePoint);
  }

  /** `threads.contains(t)` for a `t` at `pc`: `equals` compares program
      counters only. */
  predicate ContainsPc(threads: seq<Thread>, pc: nat)
  {
    exists k | 0 <= k < |threads| :: threads[k].programCounter == pc
  }

  /** No two threads of the list share a program counter. */
  predicate Distinct(threads: seq<Thread>)
  {
    forall a, b | 0 <= a < b < |threads| :: threads[a].programCounter != threads[b].programCounter
  }

  /** The list after `jump` or `match` offered it `t`: `t` is appended unless a
      thread at its program counter is already there, so the first writer wins. */
  function Added(threads: seq<Thread>, t: Thread): seq<Thread>
  {
    if ContainsPc(threads, t.programCounter) then threads else threads + [t]
  }

  /** Offering a thread keeps the list free of duplicate program counters,
      only ever appends, and leaves a thread at the offered program counter. */
  lemma AddedFacts(threads: seq<Thread>, t: Thread)
    ensures Distinct(threads) ==> Distinct(Added(threads, t))
    ensures ContainsPc(Added(threads, t), t.programCounter)
    ensures threads <= Added(threads, t) && |Added(threads, t)| <= |threads| + 1
    ensures forall u | u in Added(threads, t) :: u in threads || u == t
    ensures ContainsPc(threads, t.programCounter) <==> Added(threads, t) == threads
  {
    if !ContainsPc(threads, t.programCounter) {
      assert (threads + [t])[|threads|].programCounter == t.programCounter;
    }
  }

  /** The list after the threads of `ts` were offered in order. */
  function AddedAll(threads: seq<Thread>, ts: seq<Thread>): seq<Thread>
    decreases |ts|
  {
    if ts == [] then threads else Added(AddedAll(threads, ts[..|ts| - 1]), ts[|ts| - 1])
  }

  /** Offering several threads keeps the list free of duplicate program
      counters and adds only offered threads. */
  lemma {:induction false} AddedAllFacts(threads: seq<Thread>, ts: seq<Thread>)
    ensures Distinct(threads) ==> Distinct(AddedAll(threads, ts))
    ensures forall u | u in AddedAll(threads, ts) :: u in threads || u in ts
    decreases |ts|
  {
    if ts != [] {
      AddedAllFacts(threads, ts[..|ts| - 1]);
      AddedFacts(AddedAll(threads, ts[..|ts| - 1]), ts[|ts| - 1]);
      assert forall u | u in ts[..|ts| - 1] :: u in ts;
    }
  }

  /** Jumps of `thread` to each of `pcs`, in order. */
  function Jumps(thread: Thread, pcs: seq<nat>): seq<Thread>
  {
    seq(|pcs|, k requires 0 <= k < |pcs| => thread.Jump(pcs[k]))
  }

  /** The threads `thread` spawns by consuming `cp` towards each of `pcs`, in order. */
  function Spawned(thread: Thread, pcs: seq<nat>, cp: int): seq<Thread>
  {
    seq(|pcs|, k requires 0 <= k < |pcs| => thread.Consume(pcs[k], cp))
  }

  /** The threads `ins.execute(thread, state, cp)` hands to the state, in the
      order it hands them: a Start jumps to each successor, a CodePoint equal to
      `cp` matches into each successor, anything else hands nothing. */
  ghost function Handed(ins: Instruction, thread: Thread, cp: int): seq<Thread>
  {
    match ins
    case Start(pcs) => Jumps(thread, Ascending(pcs))
    case CodePoint(c, pcs) => if c == cp then Spawned(thread, Ascending(pcs), cp) else []
    case Success => []
  }

  /** The current thread list a new state starts with. */
  ghost function InitialThreads(program: Program): seq<Thread>
    requires |program| > 0
  {
    if program[0].Start? then AddedAll([], Handed(program[0], Thread(0, []), PRIMING_CODE_POINT))
    else [Thread(0, [])]
  }

  /** `DefaultVirtualMachineState`: the threads of this tick and of the next. */
  class DefaultVirtualMachineState {
    var threads: seq<Thread>
    var newThreads: seq<Thread>

    ghost predicate Valid()
      reads this
    {
      Distinct(threads) && Distinct(newThreads)
    }

    /** Starts with the thread (0, ""); a first Start instruction is executed
        at once and its jump targets become the current threads. */
    constructor(program: Program)
      requires |program| > 0
      ensures Valid()
      ensures threads == InitialThreads(program) && newThreads == []
    {
      threads := [];
      newThreads := [];
      new;
      var firstInstruction := program[0];
      var thread := Thread(0, []);
      if firstInstruction.Start? {
        var _ := Execute(firstInstruction, thread, this, PRIMING_CODE_POINT);
        PrepareForNextTick();
      } else {
        threads := [thread];
      }
    }

    /** The next tick's threads become current. */
    method PrepareForNextTick()
      requires Valid()
      modifies this
      ensures Valid()
      ensures threads == old(newThreads) && newThreads == []
    {
      threads := newThreads;
      newThreads := [];
    }

    /** `jump`: offers `thread` moved to `programCounter` to the next tick. */
    method Jump(thread: Thread, programCounter: nat)
      requires Valid()
      modifies this
      ensures Valid()
      ensures threads == old(threads)
      ensures newThreads == Added(old(newThreads), thread.Jump(programCounter))
    {
      var newThread := thread.Jump(programCounter);
      AddedFacts(newThreads, newThread);
      if !ContainsPc(newThreads, newThread.programCounter) {
        newThreads := newThreads + [newThread];
      }
    }

    /** `match`: offers `thread` advanced over `matchedCodePoint` to the next
        tick. */
    method Match(thread: Thread, programCounter: nat, matchedCodePoint: int)
      requires Valid()
      modifies this
      ensures Valid()
      ensures threads == old(threads)
      ensures newThreads == Added(old(newThreads), thread.Consume(programCounter, matchedCodePoint))
    {
      var newThread := thread.Consume(programCounter, matchedCodePoint);
      AddedFacts(newThreads, newThread);
      if !ContainsPc(newThreads, newThread.programCounter) {
        newThreads := newThreads + [newThread];
      }
    }
  }

  lemma JumpsSnoc(thread: Thread, pcs: seq<nat>, pc: nat)
    ensures Jumps(thread, pcs + [pc]) == Jumps(thread, pcs) + [thread.Jump(pc)]
  {
    var l := Jumps(thread, pcs + [pc]);
    var r := Jumps(thread, pcs) + [thread.Jump(pc)];
    assert |l| == |r|;
    forall k | 0 <= k < |l|
      ensures l[k] == r[k]
    {
      if k < |pcs| {
        assert (pcs + [pc])[k] == pcs[k];
      }
    }
  }

  lemma SpawnedSnoc(thread: Thread, pcs: seq<nat>, pc: nat, cp: int)
    ensures Spawned(thread, pcs + [pc], cp) == Spawned(thread, pcs, cp) + [thread.Consume(pc, cp)]
  {
    var l := Spawned(thread, pcs + [pc], cp);
    var r := Spawned(thread, pcs, cp) + [thread.Consume(pc, cp)];
    assert |l| == |r|;
    forall k | 0 <= k < |l|
      ensures l[k] == r[k]
    {
      if k < |pcs| {
        assert (pcs + [pc])[k] == pcs[k];
      }
    }
  }

  lemma AddedAllSnoc(threads: seq<Thread>, ts: seq<Thread>, t: Thread)
    ensures AddedAll(threads, ts + [t]) == Added(AddedAll(threads, ts), t)
  {
    assert (ts + [t])[..|ts|] == ts;
  }

  /** Visiting the least pending member `q` of `rest` next keeps the visit in
      ascending order. */
  lemma AscendingStep(pcs: set<nat>, visited: seq<nat>, rest: set<nat>, q: nat)
    requires Ascending(pcs) == visited + Ascending(rest)
    requires q in rest && forall x | x in rest :: q <= x
    ensures Ascending(pcs) == (visited + [q]) + Ascending(rest - {q})
  {
    AscendingFirst(rest, q);
    SeqShift(visited, q, Ascending(rest - {q}));
  }

  lemma SeqShift(visited: seq<nat>, q: nat, later: seq<nat>)
    ensures visited + ([q] + later) == (visited + [q]) + later
  {
  }

  /** `DefaultInstructionStart.execute`: jumps to every successor in ascending
      order and never fires. */
  method ExecuteStart(pcs: set<nat>, thread: Thread, state: DefaultVirtualMachineState)
    requires state.Valid()
    modifies state
    ensures state.Valid()
    ensures state.threads == old(state.threads)
    ensures state.newThreads == AddedAll(old(state.newThreads), Jumps(thread, Ascending(pcs)))
  {
    var rest := pcs;
    ghost var visited: seq<nat> := [];
    while rest != {}
      invariant state.Valid() && state.threads == old(state.threads)
      invariant Ascending(pcs) == visited + Ascending(rest)
      invariant state.newThreads == AddedAll(old(state.newThreads), Jumps(thread, visited))
      decreases |rest|
    {
      NatMinimumExists(rest);
      var programCounter :| programCounter in rest && forall x | x in rest :: programCounter <= x;
      AscendingStep(pcs, visited, rest, programCounter);
      AddedAllSnoc(old(state.newThreads), Jumps(thread, visited), thread.Jump(programCounter));
      JumpsSnoc(thread, visited, programCounter);
      state.Jump(thread, programCounter);
      rest := rest - {programCounter};
      visited := visited + [programCounter];
    }
    assert visited == Ascending(pcs);
  }

  /** `DefaultInstructionCodePoint.execute`: on its own code point, matches into
      every successor in ascending order; it never fires. */
  method ExecuteCodePoint(codePoint: int, pcs: set<nat>, thread: Thread, state: DefaultVirtualMachineState, nextCodePoint: int)
    requires state.Valid()
    modifies state
    ensures state.Valid()
    ensures state.threads == old(state.threads)
    ensures codePoint != nextCodePoint ==> state.newThreads == old(state.newThreads)
    ensures codePoint == nextCodePoint ==>
      state.newThreads == AddedAll(old(state.newThreads), Spawned(thread, Ascending(pcs), nextCodePoint))
  {
    if codePoint == nextCodePoint {
      var rest := pcs;
      ghost var visited: seq<nat> := [];
      while rest != {}
        invariant state.Valid() && state.threads == old(state.threads)
        invariant Ascending(pcs) == visited + Ascending(rest)
        invariant state.newThreads == AddedAll(old(state.newThreads), Spawned(thread, visited, nextCodePoint))
        decreases |rest|
      {
        NatMinimumExists(rest);
        var programCounter :| programCounter in rest && forall x | x in rest :: programCounter <= x;
        AscendingStep(pcs, visited, rest, programCounter);
        AddedAllSnoc(old(state.newThreads), Spawned(thread, visited, nextCodePoint), thread.Consume(programCounter, nextCodePoint));
        SpawnedSnoc(thread, visited, programCounter, nextCodePoint);
        state.Match(thread, programCounter, nextCodePoint);
        rest := rest - {programCounter};
        visited := visited + [programCounter];
      }
      assert visited == Ascending(pcs);
    }
  }

  /** `Instruction.execute`: hands the state the threads `Handed` lists and
      fires exactly on Success. */
  method Execute(ins: Instruction, thread: Thread, state: DefaultVirtualMachineState, nextCodePoint: int) returns (fired: bool)
    requires state.Valid()
    modifies state
    ensures state.Valid()
    ensures fired <==> ins.Success?
    ensures state.threads == old(state.threads)
    ensures state.newThreads == AddedAll(old(state.newThreads), Handed(ins, thread, nextCodePoint))
  {
    match ins
    case Start(pcs) =>
      ExecuteStart(pcs, thread, state);
      fired := false;
    case CodePoint(c, pcs) =>
      ExecuteCodePoint(c, pcs, thread, state, nextCodePoint);
      fired := false;
    case Success =>
      fired := true;
  }

  // ---------------------------------------------------------------------
  // DefaultVirtualMachine.match
  // ---------------------------------------------------------------------

  /** `Match`: a no-match carries the stream it was given; a match carries the
      unread stream and the matched text. */
  datatype MatchResult =
    | NoMatch(unread: Utf16.CpTape)
    | Matched(unread: Utf16.CpTape, matchedText: seq<int>)
  {
    /** `matches()`. */
    predicate Matches() { Matched? }

    /** `getMatchedText()`: the text of a match; a no-match has none. */
    function MatchedText(): (r: Result<seq<int>>)
      ensures r.Ok? <==> Matches()
      ensures r.Ok? ==> r.value == matchedText
      ensures r.Err? ==> r.message == "No matched text."
    {
      if NoMatch? then Err("No matched text.") else Ok(matchedText)
    }
  }

  /** How one tick ends: a thread fired with its text, or every thread ran and
      these are the next tick's threads. */
  datatype TickOutcome = Fired(matchedText: seq<int>) | Continued(newThreads: seq<Thread>)

  /** One tick: the threads run in list order against `cp`, `newThreads`
      collecting what they hand on; the first thread on a Success fires. */
  ghost function Tick(program: Program, threads: seq<Thread>, cp: int, newThreads: seq<Thread>): Result<TickOutcome>
    decreases |threads|
  {
    if threads == [] then Ok(Continued(newThreads))
    else
      var thread := threads[0];
      if thread.programCounter >= |program| then Err(INDEX_OUT_OF_BOUNDS)
      else if program[thread.programCounter].Success? then Ok(Fired(thread.matchedText))
      else Tick(program, threads[1..], cp, AddedAll(newThreads, Handed(program[thread.programCounter], thread, cp)))
  }

  /** The run from the stream position `stream` with current `threads`; `input`
      is the stream `match` was given. */
  ghost function Run(program: Program, threads: seq<Thread>, stream: Utf16.CpTape, input: Utf16.CpTape): Result<MatchResult>
    decreases |stream.cps|
  {
    if threads == [] then Ok(NoMatch(input))
    else
      var head := CodePointStreams.HeadOf(stream);
      if head.Err? then Err(head.message)
      else
        match Tick(program, threads, head.value, [])
        case Err(message) => Err(message)
        case Ok(Fired(text)) => Ok(Matched(stream, text))
        case Ok(Continued(next)) => Run(program, next, Utf16.CpTape(stream.cps[1..], stream.corrupt), input)
  }

  /** `DefaultVirtualMachine.match`: runs `program` over `input`, one tick per
      code point. */
  method Match(program: Program, input: Utf16.CpTape) returns (r: Result<MatchResult>)
    requires |program| > 0
    ensures r == Run(program, InitialThreads(program), input, input)
  {
    var state := new DefaultVirtualMachineState(program);
    var stream := input;
    while state.threads != []
      invariant state.Valid() && state.newThreads == []
      invariant Run(program, state.threads, stream, input) == Run(program, InitialThreads(program), input, input)
      decreases |stream.cps|
    {
      var head := CodePointStreams.HeadOf(stream);
      if head.Err? {
        return Err(head.message);
      }
      var nextCodePoint := head.value;
      ghost var current := state.threads;
      var index := 0;
      while index < |state.threads|
        invariant state.Valid() && state.threads == current && index <= |current|
        invariant Tick(program, current[index..], nextCodePoint, state.newThreads) == Tick(program, current, nextCodePoint, [])
      {
        var thread := state.threads[index];
        assert current[index..][0] == thread && current[index..][1..] == current[index + 1..];
        index := index + 1;
        if thread.programCounter >= |program| {
          return Err(INDEX_OUT_OF_BOUNDS);
        }
        var fired := Execute(program[thread.programCounter], thread, state, nextCodePoint);
        if fired {
          return Ok(Matched(stream, thread.matchedText));
        }
      }
      state.PrepareForNextTick();
      var tail := CodePointStreams.TailOf(stream);
      stream := tail.value;
    }
    return Ok(NoMatch(input));
  }

  // ---------------------------------------------------------------------
  // What a run promises
  // ---------------------------------------------------------------------

  /** A tick that fires fires for the first thread, in list order, that sits
      on a Success; every thread before it sits on another instruction. */
  lemma {:induction false} TickFiresFirst(program: Program, threads: seq<Thread>, cp: int, newThreads: seq<Thread>)
    requires Tick(program, threads, cp, newThreads).Ok? && Tick(program, threads, cp, newThreads).value.Fired?
    ensures exists k | 0 <= k < |threads| ::
      && threads[k].programCounter < |program|
      && program[threads[k].programCounter].Success?
      && Tick(program, threads, cp, newThreads).value.matchedText == threads[k].matchedText
      && forall j | 0 <= j < k :: threads[j].programCounter < |program| && !program[threads[j].programCounter].Success?
    decreases |threads|
  {
    var thread := threads[0];
    if !program[thread.programCounter].Success? {
      var next := AddedAll(newThreads, Handed(program[thread.programCounter], thread, cp));
      TickFiresFirst(program, threads[1..], cp, next);
      var k :| 0 <= k < |threads[1..]| && threads[1..][k].programCounter < |program|
        && program[threads[1..][k].programCounter].Success?
        && Tick(program, threads[1..], cp, next).value.matchedText == threads[1..][k].matchedText
        && forall j | 0 <= j < k :: threads[1..][j].programCounter < |program| && !program[threads[1..][j].programCounter].Success?;
      assert forall j | 0 < j <= k + 1 :: threads[j] == threads[1..][j - 1];
    }
  }

  /** The program counters of a list of threads. */
  function ProgramCounters(threads: seq<Thread>): set<nat>
  {
    set k | 0 <= k < |threads| :: threads[k].programCounter
  }

  lemma {:induction false} ProgramCountersSize(threads: seq<Thread>)
    requires Distinct(threads)
    ensures |ProgramCounters(threads)| == |threads|
    decreases |threads|
  {
    if threads != [] {
      var init := threads[..|threads| - 1];
      var last := threads[|threads| - 1];
      ProgramCountersSize(init);
      assert ProgramCounters(threads) == ProgramCounters(init) + {last.programCounter};
      assert last.programCounter !in ProgramCounters(init);
    }
  }

  /** The program counters below `n`. */
  function Range(n: nat): (r: set<nat>)
    ensures |r| == n
    ensures forall i: nat :: i in r <==> i < n
  {
    if n == 0 then {} else Range(n - 1) + {n - 1}
  }

  /** A list without duplicate program counters, all inside a program of
      length `n`, holds at most `n` threads. */
  lemma DistinctBound(threads: seq<Thread>, n: nat)
    requires Distinct(threads)
    requires forall t | t in threads :: t.programCounter < n
    ensures |threads| <= n
  {
    ProgramCountersSize(threads);
    var pcs := ProgramCounters(threads);
    var range := Range(n);
    forall pc | pc in pcs
      ensures pc in range
    {
      var k :| 0 <= k < |threads| && threads[k].programCounter == pc;
      assert threads[k] in threads;
    }
    assert range == pcs + (range - pcs);
    assert pcs * (range - pcs) == {};
  }

  /** Every thread of the list sits on an instruction of the program other
      than a Start, and has matched `text`. */
  ghost predicate Carry(program: Program, threads: seq<Thread>, text: seq<int>)
  {
    forall t | t in threads ::
      t.programCounter < |program| && !program[t.programCounter].Start? && t.matchedText == text
  }

  /** In a well-linked program, what a non-Start instruction hands on sits on
      non-Start instructions and has matched one more code point. */
  lemma HandedCarry(program: Program, pc: nat, thread: Thread, cp: int)
    requires WellLinked(program) && pc < |program| && !program[pc].Start?
    ensures Carry(program, Handed(program[pc], thread, cp), thread.matchedText + [cp])
  {
    var ins := program[pc];
    var handed := Handed(ins, thread, cp);
    if ins.CodePoint? && ins.codePoint == cp {
      var asc := Ascending(ins.programCounters);
      assert handed == Spawned(thread, asc, cp);
      forall u | u in handed
        ensures u.programCounter < |program| && !program[u.programCounter].Start?
        ensures u.matchedText == thread.matchedText + [cp]
      {
        var j :| 0 <= j < |handed| && handed[j] == u;
        assert u == thread.Consume(asc[j], cp);
        assert asc[j] in asc;
        WellLinkedTarget(program, pc, asc[j]);
      }
    } else {
      assert handed == [];
    }
  }

  /** A tick of a well-linked program whose threads have all matched `text`
      never fails; it fires with `text`, or hands on a list of distinct threads,
      at most one per instruction, that have all matched `text + [cp]`. */
  lemma {:induction false} TickCarry(program: Program, threads: seq<Thread>, cp: int, newThreads: seq<Thread>, text: seq<int>)
    requires WellLinked(program)
    requires Carry(program, threads, text) && Carry(program, newThreads, text + [cp]) && Distinct(newThreads)
    ensures Tick(program, threads, cp, newThreads).Ok?
    ensures Tick(program, threads, cp, newThreads).value.Fired? ==>
      Tick(program, threads, cp, newThreads).value.matchedText == text
    ensures Tick(program, threads, cp, newThreads).value.Continued? ==>
      var next := Tick(program, threads, cp, newThreads).value.newThreads;
      Carry(program, next, text + [cp]) && Distinct(next) && |next| <= |program|
    decreases |threads|
  {
    if threads == [] {
      DistinctBound(newThreads, |program|);
    } else {
      var thread := threads[0];
      assert thread in threads;
      if !program[thread.programCounter].Success? {
        var handed := Handed(program[thread.programCounter], thread, cp);
        var next := AddedAll(newThreads, handed);
        HandedCarry(program, thread.programCounter, thread, cp);
        AddedAllFacts(newThreads, handed);
        assert forall t | t in threads[1..] :: t in threads;
        TickCarry(program, threads[1..], cp, next, text);
      }
    }
  }

  /** A run of a well-linked program from a position `stream` of `input`, whose
      threads have all matched what lies before that position: a match reports a
      prefix of the input and leaves the rest unread, a no-match returns the
      input itself, and a failure can only be the stream's. */
  lemma {:induction false} RunPrefix(program: Program, threads: seq<Thread>, stream: Utf16.CpTape, input: Utf16.CpTape, text: seq<int>)
    requires WellLinked(program)
    requires Carry(program, threads, text)
    requires text + stream.cps == input.cps && stream.corrupt == input.corrupt
    ensures var r := Run(program, threads, stream, input);
      && (r.Ok? && r.value.Matched? ==> r.value.matchedText + r.value.unread.cps == input.cps && r.value.unread.corrupt == input.corrupt)
      && (r.Ok? && r.value.NoMatch? ==> r.value.unread == input)
      && (r.Err? ==> r.message == CodePointStreams.EMPTY_STREAM || r.message == CodePointStreams.CORRUPT_STREAM)
    decreases |stream.cps|
  {
    if threads != [] && |stream.cps| > 0 {
      var cp := stream.cps[0];
      TickCarry(program, threads, cp, [], text);
      var tick := Tick(program, threads, cp, []);
      if tick.value.Continued? {
        var rest := Utf16.CpTape(stream.cps[1..], stream.corrupt);
        assert (text + [cp]) + rest.cps == input.cps by {
          assert stream.cps == [cp] + rest.cps;
        }
        RunPrefix(program, tick.value.newThreads, rest, input, text + [cp]);
      }
    }
  }

  /** What `match` promises for a well-linked program: a match is a prefix of
      the input followed by what is left unread, a no-match carries the input
      unchanged, and the only failures are the stream's own ("Empty stream." when
      threads are still alive at the end of the input). */
  lemma MatchPrefix(program: Program, input: Utf16.CpTape)
    requires |program| > 0 && WellLinked(program)
    ensures var r := Run(program, InitialThreads(program), input, input);
      && (r.Ok? && r.value.Matched? ==> r.value.matchedText + r.value.unread.cps == input.cps && r.value.unread.corrupt == input.corrupt)
      && (r.Ok? && r.value.NoMatch? ==> r.value.unread == input)
      && (r.Err? ==> r.message == CodePointStreams.EMPTY_STREAM || r.message == CodePointStreams.CORRUPT_STREAM)
  {
    var first := Thread(0, []);
    if program[0].Start? {
      var handed := Handed(program[0], first, PRIMING_CODE_POINT);
      AddedAllFacts([], handed);
      var asc := Ascending(program[0].programCounters);
      assert handed == Jumps(first, asc);
      forall u | u in handed
        ensures u.programCounter < |program| && !program[u.programCounter].Start? && u.matchedText == []
      {
        var j :| 0 <= j < |handed| && handed[j] == u;
        assert u == first.Jump(asc[j]);
        assert asc[j] in asc;
        WellLinkedTarget(program, 0, asc[j]);
      }
    }
    assert Carry(program, InitialThreads(program), []);
    RunPrefix(program, InitialThreads(program), input, input, []);
  }

  /** The pattern `a` links to [CodePoint('a') -> {1}, Success]. On the input
      "a" the thread that reaches Success is still waiting for the next tick
      when the input runs out, so `head()` fails and the run reports
      "Empty stream." instead of a match. */
  lemma EndOfInputFails()
    ensures Run([CodePoint(97, {1}), Success], [Thread(0, [])], Utf16.CpTape([97], false), Utf16.CpTape([97], false))
      == Err(CodePointStreams.EMPTY_STREAM)
    ensures InitialThreads([CodePoint(97, {1}), Success]) == [Thread(0, [])]
  {
    SingleCodePointRun(97);
  }

  /** The same run for any single code point `c` and the pattern matching it. */
  lemma SingleCodePointRun(c: int)
    ensures Run([CodePoint(c, {1}), Success], [Thread(0, [])], Utf16.CpTape([c], false), Utf16.CpTape([c], false))
      == Err(CodePointStreams.EMPTY_STREAM)
  {
    var program := [CodePoint(c, {1}), Success];
    var input := Utf16.CpTape([c], false);
    var rest := Utf16.CpTape([], false);
    var next := [Thread(1, [c])];
    FirstTickOf(c);
    assert input.cps[1..] == [];
    assert Run(program, [Thread(0, [])], input, input) == Run(program, next, rest, input);
  }

  /** The first tick of that run: the thread at the CodePoint takes `c` and
      waits at the Success. */
  lemma FirstTickOf(c: int)
    ensures Tick([CodePoint(c, {1}), Success], [Thread(0, [])], c, [])
      == Ok(Continued([Thread(1, [c])]))
  {
    var program := [CodePoint(c, {1}), Success];
    var first := Thread(0, []);
    MatchedOnce(first, 1, c);
    assert first.Consume(1, c) == Thread(1, [c]);
    AddedToEmpty(Thread(1, [c]));
    assert !program[0].Success? && program[0] == CodePoint(c, {1});
    assert [first][1..] == [];
    assert Tick(program, [first], c, []) == Tick(program, [], c, [Thread(1, [c])]);
  }

  /** A thread at a CodePoint of `c` with the single successor `p` is handed
      on as one match into `p`. */
  lemma MatchedOnce(thread: Thread, p: nat, c: int)
    ensures Handed(CodePoint(c, {p}), thread, c) == [thread.Consume(p, c)]
  {
    var asc := Ascending({p});
    assert asc[0] in asc;
    assert asc == [p];
  }

  /** Offering one thread to an empty list gives that thread alone. */
  lemma AddedToEmpty(t: Thread)
    ensures AddedAll([], [t]) == [t]
  {
    assert [t][..0] == [];
  }
}
