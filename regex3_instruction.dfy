/** `regex3.Instruction`: the five instruction kinds (the `type` tag of each
    is its constructor) and their renderings. */
module Regex3Instruction {
  import Tokens
  import opened Sets
  import opened Decimal
  import opened Regex3CodePoint

  /** The members of a built `CodePoints`, which is never empty. */
  type Members = s: set<nat> | s != {} witness {0}

  datatype Instruction =
    | Single(codePoint: CodePoint)
    | Range(codePoints: Members)
    | Fork(offset: int)
    | Jump(offset: int)
    | Success

  // ---------------------------------------------------------------------
  // Fork and Jump: `FORK +n` / `JUMP +n` for positive offsets, the plain
  // number otherwise
  // ---------------------------------------------------------------------

  function OffsetText(name: string, offset: int): string
  {
    name + " " + (if offset > 0 then "+" else "") + Show(offset)
  }

  /** `Fork.toString`. */
  function ForkText(offset: int): string { OffsetText("FORK", offset) }

  /** `Jump.toString`. */
  function JumpText(offset: int): string { OffsetText("JUMP", offset) }

  /** After the name and a space, the text carries `+` exactly for a positive
      offset, `-` exactly for a negative one, and reads back as the offset. */
  lemma OffsetTextReadsBack(name: string, offset: int)
    ensures var t := OffsetText(name, offset);
      && |t| > |name| + 1
      && t[..|name| + 1] == name + " "
      && (t[|name| + 1] == '+' <==> offset > 0)
      && (t[|name| + 1] == '-' <==> offset < 0)
      && (forall i | |name| + 2 <= i < |t| :: IsDigit(t[i]))
      && ParseSigned(t[|name| + 1..]) == offset
  {
    var t := OffsetText(name, offset);
    var number := t[|name| + 1..];
    ShowRoundTrip(offset);
    if offset > 0 {
      assert number == "+" + Digits(offset);
      assert number[1..] == Digits(offset);
      DigitsRoundTrip(offset);
    } else if offset < 0 {
      assert number == "-" + Digits(-offset);
      assert number[1..] == Digits(-offset);
    } else {
      assert number == "0";
    }
  }

  // ---------------------------------------------------------------------
  // Range.toString: maximal runs of consecutive members
  // ---------------------------------------------------------------------

  /** The members greater than `k`. */
  function Above(s: set<nat>, k: int): set<nat>
  {
    set x | x in s && x > k
  }

  /** The end of the run of consecutive members that starts at member `k`. */
  ghost function RunEnd(s: set<nat>, k: nat): (e: nat)
    requires k in s
    ensures k <= e && e in s && e + 1 !in s
    ensures forall x | k <= x <= e :: x in s
    decreases Above(s, k)
  {
    if k + 1 in s then
      assert k + 1 !in Above(s, k + 1);
      RunEnd(s, k + 1)
    else k
  }

  /** The maximal runs `(first, last)` of consecutive members, in ascending order. */
  ghost function Runs(s: set<nat>): seq<(nat, nat)>
    decreases s
  {
    if s == {} then []
    else
      var lo: nat := Minimum(s);
      var hi := RunEnd(s, lo);
      assert lo !in Above(s, hi);
      [(lo, hi)] + Runs(Above(s, hi))
  }

  predicate InRun(run: (nat, nat), x: int) { run.0 <= x <= run.1 }

  ghost predicate InRuns(runs: seq<(nat, nat)>, x: nat)
  {
    exists i | 0 <= i < |runs| :: InRun(runs[i], x)
  }

  /** Each run is non-empty, and neighbours are ascending with a gap. */
  ghost predicate Separated(runs: seq<(nat, nat)>)
  {
    && (forall i | 0 <= i < |runs| :: runs[i].0 <= runs[i].1)
    && (forall i | 0 <= i < |runs| - 1 :: runs[i].1 + 1 < runs[i + 1].0)
  }

  /** No run can be extended at either end. */
  ghost predicate Unextendable(s: set<nat>, runs: seq<(nat, nat)>)
  {
    forall i | 0 <= i < |runs| :: runs[i].1 + 1 !in s && (runs[i].0 > 0 ==> (runs[i].0 - 1) as nat !in s)
  }

  /** `runs` are the maximal runs of consecutive members of `s`: separated,
      unextendable, and together holding exactly the members. */
  ghost predicate AreRunsOf(s: set<nat>, runs: seq<(nat, nat)>)
  {
    && Separated(runs)
    && Unextendable(s, runs)
    && (forall x: nat :: x in s <==> InRuns(runs, x))
  }

  /** The first run, and what lies above it. */
  lemma RunsUnfold(s: set<nat>)
    requires s != {}
    ensures var lo := Minimum(s); var hi := RunEnd(s, lo);
      && Runs(s) == [(lo, hi)] + Runs(Above(s, hi))
      && lo <= hi
      && (forall x | x in s :: lo <= x)
      && (forall x | x in Above(s, hi) :: hi + 1 < x)
      && (forall x: nat | x in s :: x in Above(s, hi) || lo <= x <= hi)
  {
    var lo: nat := Minimum(s);
    var hi := RunEnd(s, lo);
    assert hi + 1 !in Above(s, hi);
  }

  /** Every run starts above any bound below all members. */
  lemma {:induction false} RunsAbove(s: set<nat>, bound: int)
    requires forall x | x in s :: bound < x
    ensures forall i | 0 <= i < |Runs(s)| :: bound < Runs(s)[i].0
    decreases s
  {
    if s != {} {
      var lo: nat := Minimum(s);
      var hi := RunEnd(s, lo);
      RunsUnfold(s);
      assert lo !in Above(s, hi);
      RunsAbove(Above(s, hi), bound);
    }
  }

  lemma {:induction false} RunsSeparated(s: set<nat>)
    ensures Separated(Runs(s))
    decreases s
  {
    if s != {} {
      var lo: nat := Minimum(s);
      var hi := RunEnd(s, lo);
      var rest := Above(s, hi);
      RunsUnfold(s);
      assert lo !in rest;
      RunsSeparated(rest);
      RunsAbove(rest, hi + 1);
      var runs := Runs(s);
      assert forall i | 1 <= i < |runs| :: runs[i] == Runs(rest)[i - 1];
    }
  }

  lemma {:induction false} RunsUnextendable(s: set<nat>)
    ensures Unextendable(s, Runs(s))
    decreases s
  {
    if s != {} {
      var lo: nat := Minimum(s);
      var hi := RunEnd(s, lo);
      var rest := Above(s, hi);
      RunsUnfold(s);
      assert lo !in rest;
      RunsUnextendable(rest);
      RunsAbove(rest, hi + 1);
      RunsSeparated(rest);
      var runs := Runs(s);
      forall i | 0 <= i < |runs|
        ensures runs[i].1 + 1 !in s && (runs[i].0 > 0 ==> (runs[i].0 - 1) as nat !in s)
      {
        if i > 0 {
          var run := Runs(rest)[i - 1];
          assert runs[i] == run;
          assert hi + 1 < run.0 <= run.1;
          assert run.1 + 1 !in rest && (run.0 - 1) as nat !in rest;
        }
      }
    }
  }

  lemma {:induction false} RunsCover(s: set<nat>)
    ensures forall x: nat :: x in s <==> InRuns(Runs(s), x)
    decreases s
  {
    if s != {} {
      var lo: nat := Minimum(s);
      var hi := RunEnd(s, lo);
      var rest := Above(s, hi);
      RunsUnfold(s);
      assert lo !in rest;
      RunsCover(rest);
      var runs := Runs(s);
      var tail := Runs(rest);
      forall x: nat
        ensures x in s <==> InRuns(runs, x)
      {
        if x in s {
          if x <= hi {
            assert InRun(runs[0], x);
          } else {
            assert x in rest;
            var j :| 0 <= j < |tail| && InRun(tail[j], x);
            assert runs[j + 1] == tail[j];
          }
        }
        if InRuns(runs, x) {
          var i :| 0 <= i < |runs| && InRun(runs[i], x);
          if i > 0 {
            assert runs[i] == tail[i - 1];
            assert InRuns(tail, x);
          }
        }
      }
    }
  }

  /** The runs `Range.toString` lists are the maximal runs of members. */
  lemma RunsAreMaximal(s: set<nat>)
    ensures AreRunsOf(s, Runs(s))
  {
    RunsSeparated(s);
    RunsUnextendable(s);
    RunsCover(s);
  }

  /** `toText(cp)`: the code point cast to `char` (its low 16 bits), quoted. */
  function QuotedChar(codePoint: int): seq<int>
  {
    Tokens.Codes("'") + [codePoint % 0x1_0000] + Tokens.Codes("'")
  }

  /** One run: `'a'` for a single member, `['a'..'b']` otherwise. */
  function RunText(lowerBound: nat, upperBound: nat): seq<int>
  {
    if lowerBound == upperBound then QuotedChar(lowerBound)
    else Tokens.Codes("[") + QuotedChar(lowerBound) + Tokens.Codes("..") + QuotedChar(upperBound) + Tokens.Codes("]")
  }

  /** `appendRange(sb, lo, hi)`: a comma separator unless `sb` is still empty. */
  function AppendRange(sb: seq<int>, lowerBound: nat, upperBound: nat): seq<int>
  {
    (if |sb| > 0 then sb + Tokens.Codes(", ") else sb) + RunText(lowerBound, upperBound)
  }

  /** The runs written one after another with `appendRange`. */
  function Joined(runs: seq<(nat, nat)>): seq<int>
  {
    if runs == [] then [] else AppendRange(Joined(runs[..|runs| - 1]), runs[|runs| - 1].0, runs[|runs| - 1].1)
  }

  /** `nextSetBit(from)`: the least member at or after `from`, or -1. */
  ghost function NextSetBitOf(s: set<nat>, from: int): (r: int)
    ensures r == -1 <==> forall x | x in s :: x < from
    ensures r != -1 ==> r in s && from <= r && forall x | x in s && from <= x :: r <= x
  {
    var rest := Above(s, from - 1);
    assert forall x | x in s && from <= x :: x in rest;
    if rest == {} then -1 else Minimum(rest)
  }

  method NextSetBit(s: set<nat>, from: int) returns (r: int)
    ensures r == NextSetBitOf(s, from)
  {
    var rest := set x | x in s && x > from - 1;
    assert rest == Above(s, from - 1);
    if rest == {} {
      return -1;
    }
    NatMinimumExists(rest);
    var least :| least in rest && forall x | x in rest :: least <= x;
    assert Minimum(rest) <= least && least <= Minimum(rest);
    return least;
  }

  lemma {:induction false} RunEndFrom(s: set<nat>, k: nat, upperBound: nat)
    requires k <= upperBound && forall x | k <= x <= upperBound :: x in s
    requires upperBound + 1 !in s
    ensures RunEnd(s, k) == upperBound
    decreases upperBound - k
  {
    if k < upperBound {
      RunEndFrom(s, k + 1, upperBound);
    }
  }

  /** Closing the run `lowerBound..upperBound`: what is left of the runs from
      `lowerBound` on are the runs from the next member on. */
  lemma RunsStep(s: set<nat>, lowerBound: nat, upperBound: nat, next: int)
    requires lowerBound <= upperBound && forall x | lowerBound <= x <= upperBound :: x in s
    requires upperBound + 1 !in s
    requires next == NextSetBitOf(s, upperBound + 1)
    ensures Runs(Above(s, lowerBound - 1)) ==
      [(lowerBound, upperBound)] + (if next == -1 then [] else Runs(Above(s, next - 1)))
  {
    var a := Above(s, lowerBound - 1);
    assert lowerBound in a;
    assert Minimum(a) == lowerBound;
    RunEndFrom(a, lowerBound, upperBound);
    assert Above(a, upperBound) == Above(s, upperBound);
    if next != -1 {
      assert Above(s, next - 1) == Above(s, upperBound) by {
        forall x | x in Above(s, upperBound)
          ensures x > next - 1
        {
        }
      }
    }
  }

  /** The loop step of `Range.toString` that writes a finished run. */
  lemma CloseRun(s: set<nat>, done: seq<(nat, nat)>, lowerBound: nat, upperBound: nat, next: int)
    requires lowerBound in s && lowerBound <= upperBound <= RunEnd(s, lowerBound)
    requires Runs(s) == done + Runs(Above(s, lowerBound - 1))
    requires next == NextSetBitOf(s, upperBound + 1) && next != upperBound + 1
    ensures next == -1 ==> Runs(s) == done + [(lowerBound, upperBound)]
    ensures next != -1 ==> Runs(s) == (done + [(lowerBound, upperBound)]) + Runs(Above(s, next - 1))
    ensures Joined(done + [(lowerBound, upperBound)]) == AppendRange(Joined(done), lowerBound, upperBound)
  {
    assert forall x | lowerBound <= x <= upperBound :: x in s;
    RunsStep(s, lowerBound, upperBound, next);
    var rest := if next == -1 then [] else Runs(Above(s, next - 1));
    assert Runs(Above(s, lowerBound - 1)) == [(lowerBound, upperBound)] + rest;
    assert done + ([(lowerBound, upperBound)] + rest) == (done + [(lowerBound, upperBound)]) + rest;
    if next == -1 {
      assert (done + [(lowerBound, upperBound)]) + rest == done + [(lowerBound, upperBound)];
    }
    JoinedSnoc(done, (lowerBound, upperBound));
  }

  lemma JoinedSnoc(done: seq<(nat, nat)>, run: (nat, nat))
    ensures Joined(done + [run]) == AppendRange(Joined(done), run.0, run.1)
  {
    assert (done + [run])[..|done|] == done;
  }

  /** The next member is the one right after the run: the run grows by one. */
  lemma ExtendRun(s: set<nat>, lowerBound: nat, upperBound: nat, next: int)
    requires lowerBound in s && lowerBound <= upperBound <= RunEnd(s, lowerBound)
    requires next == NextSetBitOf(s, upperBound + 1) && next == upperBound + 1
    ensures upperBound + 1 <= RunEnd(s, lowerBound) && Above(s, upperBound + 1) < Above(s, upperBound)
  {
    assert next !in Above(s, next);
  }

  /** The next member starts a new run further up. */
  lemma StartRun(s: set<nat>, upperBound: nat, next: int)
    requires next == NextSetBitOf(s, upperBound + 1) && next != -1
    ensures next in s && next <= RunEnd(s, next) && upperBound < next && Above(s, next) < Above(s, upperBound)
  {
    assert next in Above(s, upperBound) && next !in Above(s, next);
  }

  /** A member found after `upperBound` leaves fewer members above it. */
  lemma NextAbove(s: set<nat>, upperBound: nat, next: int)
    requires next == NextSetBitOf(s, upperBound + 1) && next != -1
    ensures upperBound < next && Above(s, next) < Above(s, upperBound)
  {
    assert next in Above(s, upperBound) && next !in Above(s, next);
  }

  /** What the loop of `Range.toString` appends to `sb` from the state where
      the current run is `lowerBound..upperBound`, until it stops. */
  ghost function Finish(s: set<nat>, sb: seq<int>, lowerBound: nat, upperBound: nat): seq<int>
    decreases Above(s, upperBound)
  {
    var next := NextSetBitOf(s, upperBound + 1);
    if next == -1 then AppendRange(sb, lowerBound, upperBound)
    else
      NextAbove(s, upperBound, next);
      if next == upperBound + 1 then Finish(s, sb, lowerBound, upperBound + 1)
      else Finish(s, AppendRange(sb, lowerBound, upperBound), next, next)
  }

  /** From any state of the loop that has written the runs `done`, it goes on
      to write all the maximal runs. */
  lemma {:induction false} FinishWritesRuns(s: set<nat>, done: seq<(nat, nat)>, lowerBound: nat, upperBound: nat)
    requires lowerBound in s && lowerBound <= upperBound <= RunEnd(s, lowerBound)
    requires Runs(s) == done + Runs(Above(s, lowerBound - 1))
    ensures Finish(s, Joined(done), lowerBound, upperBound) == Joined(Runs(s))
    decreases Above(s, upperBound)
  {
    var next := NextSetBitOf(s, upperBound + 1);
    if next == upperBound + 1 {
      ExtendRun(s, lowerBound, upperBound, next);
      FinishWritesRuns(s, done, lowerBound, upperBound + 1);
    } else {
      CloseRun(s, done, lowerBound, upperBound, next);
      if next != -1 {
        StartRun(s, upperBound, next);
        FinishWritesRuns(s, done + [(lowerBound, upperBound)], next, next);
      }
    }
  }

  /** The loop, started at the least member, writes all the maximal runs. */
  lemma FinishFromFirst(s: set<nat>)
    requires s != {}
    ensures NextSetBitOf(s, 0) in s
    ensures Finish(s, [], NextSetBitOf(s, 0), NextSetBitOf(s, 0)) == Joined(Runs(s))
  {
    var first := NextSetBitOf(s, 0);
    assert Above(s, first - 1) == s;
    FinishWritesRuns(s, [], first, first);
  }

  /** `Single.toString`: the code point cast to `char`, quoted; EOF's -1
      becomes the unit 0xFFFF. */
  function SingleText(codePoint: CodePoint): (text: seq<int>)
    ensures |text| == 10 && text[..8] == Tokens.Codes("SINGLE '") && text[9] == '\'' as int
    ensures 0 <= text[8] < 0x1_0000 && (0 <= codePoint.value < 0x1_0000 ==> text[8] == codePoint.value)
    ensures codePoint == EOF ==> text[8] == 0xFFFF
  {
    Tokens.Codes("SINGLE ") + QuotedChar(codePoint.value)
  }

  /** `Range.toString`: `RANGE ` followed by the maximal runs of members in
      ascending order, comma-separated. */
  method RangeToString(codePoints: Members) returns (text: seq<int>)
    ensures text == Tokens.Codes("RANGE ") + Joined(Runs(codePoints))
  {
    var sb: seq<int> := [];
    var lowerBound := NextSetBit(codePoints, 0);
    var upperBound := lowerBound;
    ghost var expected := Finish(codePoints, sb, lowerBound, upperBound);
    while true
      invariant 0 <= lowerBound <= upperBound
      invariant Finish(codePoints, sb, lowerBound, upperBound) == expected
      decreases Above(codePoints, upperBound)
    {
      var codePoint := NextSetBit(codePoints, upperBound + 1);
      if upperBound + 1 == codePoint {
        NextAbove(codePoints, upperBound, codePoint);
        upperBound := upperBound + 1;
        continue;
      }
      sb := AppendRange(sb, lowerBound, upperBound);
      if codePoint == -1 {
        break;
      }
      NextAbove(codePoints, upperBound, codePoint);
      lowerBound := codePoint;
      upperBound := codePoint;
    }
    FinishFromFirst(codePoints);
    text := Tokens.Codes("RANGE ") + sb;
  }
}
