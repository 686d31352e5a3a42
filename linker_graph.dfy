/** The reachability facts behind `DefaultBasicProgram.initNextProgramCounters`:
    instruction `i` may continue at matcher `m` when a walk leads from `i` to
    `m` through ephemeral instructions only. */
module LinkerGraph {
  import opened BasicInstructions

  /** Every successor of every instruction is an index of the program. */
  ghost predicate InRange(basic: seq<BasicInstruction>)
  {
    forall i, q | 0 <= i < |basic| && q in NextProgramCounters(basic[i], i) :: 0 <= q < |basic|
  }

  /** A walk along successor edges whose inner nodes are all ephemeral. */
  ghost predicate IsWalk(basic: seq<BasicInstruction>, w: seq<nat>)
  {
    && |w| >= 2
    && (forall k | 0 <= k < |w| :: w[k] < |basic|)
    && (forall k | 0 <= k < |w| - 1 :: w[k + 1] in NextProgramCounters(basic[w[k]], w[k]))
    && (forall k | 0 < k < |w| - 1 :: IsEphemeral(basic[w[k]]))
  }

  /** No inner node repeats, and none is the start. */
  ghost predicate IsSimple(w: seq<nat>)
  {
    && (forall a, b | 0 < a < b < |w| - 1 :: w[a] != w[b])
    && (forall a | 0 < a < |w| - 1 :: w[a] != w[0])
  }

  ghost predicate Reaches(basic: seq<BasicInstruction>, i: nat, x: nat)
  {
    exists w :: IsWalk(basic, w) && w[0] == i && w[|w| - 1] == x
  }

  /** The matchers `i` reaches through ephemeral instructions only. */
  ghost function Reachable(basic: seq<BasicInstruction>, i: nat): set<nat>
  {
    set m: nat | m < |basic| && !IsEphemeral(basic[m]) && Reaches(basic, i, m)
  }

  /** The immediate successors of `i` that are matchers, and those that are
      ephemeral: the first content of `i`'s pair. */
  function SuccessorsWhere(basic: seq<BasicInstruction>, i: nat, ephemeral: bool): set<nat>
    requires i < |basic|
  {
    set q: nat | q < |basic| && q in NextProgramCounters(basic[i], i) && IsEphemeral(basic[q]) == ephemeral
  }

  /** Both sets of every pair hold indices of the right kind. */
  ghost predicate Shape(basic: seq<BasicInstruction>, matchers: seq<set<nat>>, ephemerals: seq<set<nat>>)
  {
    && |matchers| == |basic| && |ephemerals| == |basic|
    && (forall i, m | 0 <= i < |basic| && m in matchers[i] :: m < |basic| && !IsEphemeral(basic[m]))
    && (forall i, e | 0 <= i < |basic| && e in ephemerals[i] :: e < |basic| && IsEphemeral(basic[e]))
  }

  /** Everything in a pair is reachable from its instruction. */
  ghost predicate Sound(basic: seq<BasicInstruction>, matchers: seq<set<nat>>, ephemerals: seq<set<nat>>)
    requires Shape(basic, matchers, ephemerals)
  {
    && (forall i, m | 0 <= i < |basic| && m in matchers[i] :: Reaches(basic, i, m))
    && (forall i, e | 0 <= i < |basic| && e in ephemerals[i] :: Reaches(basic, i, e))
  }

  /** Every simple walk from `i` to a matcher either ends in `i`'s matcher set
      already or passes through an ephemeral still pending for `i`. */
  ghost predicate Complete(basic: seq<BasicInstruction>, matchers: seq<set<nat>>, ephemerals: seq<set<nat>>)
    requires Shape(basic, matchers, ephemerals)
  {
    forall w | IsWalk(basic, w) && IsSimple(w) && !IsEphemeral(basic[w[|w| - 1]]) ::
      w[|w| - 1] in matchers[w[0]] || exists k | 0 < k < |w| - 1 :: w[k] in ephemerals[w[0]]
  }

  ghost predicate Inv(basic: seq<BasicInstruction>, matchers: seq<set<nat>>, ephemerals: seq<set<nat>>)
  {
    Shape(basic, matchers, ephemerals) && Sound(basic, matchers, ephemerals) && Complete(basic, matchers, ephemerals)
  }

  /** The pairs right after classification satisfy the invariant. */
  lemma InitialInv(basic: seq<BasicInstruction>, matchers: seq<set<nat>>, ephemerals: seq<set<nat>>)
    requires InRange(basic)
    requires |matchers| == |basic| && |ephemerals| == |basic|
    requires forall i | 0 <= i < |basic| :: matchers[i] == SuccessorsWhere(basic, i, false)
    requires forall i | 0 <= i < |basic| :: ephemerals[i] == SuccessorsWhere(basic, i, true)
    ensures Inv(basic, matchers, ephemerals)
  {
    forall i, x | 0 <= i < |basic| && (x in matchers[i] || x in ephemerals[i])
      ensures Reaches(basic, i, x)
    {
      assert IsWalk(basic, [i, x]);
    }
    forall w | IsWalk(basic, w) && IsSimple(w) && !IsEphemeral(basic[w[|w| - 1]])
      ensures w[|w| - 1] in matchers[w[0]] || exists k | 0 < k < |w| - 1 :: w[k] in ephemerals[w[0]]
    {
      assert w[1] in NextProgramCounters(basic[w[0]], w[0]);
      if |w| > 2 {
        assert w[1] in ephemerals[w[0]];
      }
    }
  }

  /** Joining a walk to an ephemeral with a walk from it. */
  lemma WalkJoin(basic: seq<BasicInstruction>, w1: seq<nat>, w2: seq<nat>)
    requires IsWalk(basic, w1) && IsWalk(basic, w2)
    requires w1[|w1| - 1] == w2[0] && IsEphemeral(basic[w2[0]])
    ensures IsWalk(basic, w1 + w2[1..])
    ensures (w1 + w2[1..])[0] == w1[0] && (w1 + w2[1..])[|w1| + |w2| - 2] == w2[|w2| - 1]
  {
    var w := w1 + w2[1..];
    forall k | 0 <= k < |w| - 1
      ensures w[k + 1] in NextProgramCounters(basic[w[k]], w[k])
    {
      if k < |w1| - 1 {
      } else {
        assert w[k] == w2[k - |w1| + 1] && w[k + 1] == w2[k - |w1| + 2];
      }
    }
    forall k | 0 < k < |w| - 1
      ensures IsEphemeral(basic[w[k]])
    {
      if k >= |w1| {
        assert w[k] == w2[k - |w1| + 1];
      }
    }
  }

  /** The tail of a simple walk from one of its inner nodes is a simple walk. */
  lemma SimpleSuffix(basic: seq<BasicInstruction>, w: seq<nat>, a: nat)
    requires IsWalk(basic, w) && IsSimple(w) && 0 < a < |w| - 1
    ensures IsWalk(basic, w[a..]) && IsSimple(w[a..])
  {
    var s := w[a..];
    forall k | 0 <= k < |s| - 1
      ensures s[k + 1] in NextProgramCounters(basic[s[k]], s[k])
    {
      assert s[k] == w[a + k] && s[k + 1] == w[a + k + 1];
    }
  }

  /** Resolving `j` in pair `i`: drop it from the pending set and, unless it is
      `i` itself, take over `j`'s matchers and pending ephemerals. */
  function ResolvedMatchers(matchers: seq<set<nat>>, i: nat, j: nat): seq<set<nat>>
    requires i < |matchers| && j < |matchers|
  {
    if j != i then matchers[i := matchers[i] + matchers[j]] else matchers
  }

  function ResolvedEphemerals(ephemerals: seq<set<nat>>, i: nat, j: nat): seq<set<nat>>
    requires i < |ephemerals| && j < |ephemerals|
  {
    ephemerals[i := (ephemerals[i] - {j}) + (if j != i then ephemerals[j] else {})]
  }

  /** One resolution step keeps the invariant. */
  lemma ResolveStep(basic: seq<BasicInstruction>, matchers: seq<set<nat>>, ephemerals: seq<set<nat>>, i: nat, j: nat)
    requires Inv(basic, matchers, ephemerals)
    requires i < |basic| && j in ephemerals[i]
    ensures j < |basic|
    ensures Inv(basic, ResolvedMatchers(matchers, i, j), ResolvedEphemerals(ephemerals, i, j))
  {
    ResolveShape(basic, matchers, ephemerals, i, j);
    ResolveSound(basic, matchers, ephemerals, i, j);
    ResolveComplete(basic, matchers, ephemerals, i, j);
  }

  lemma ResolveShape(basic: seq<BasicInstruction>, matchers: seq<set<nat>>, ephemerals: seq<set<nat>>, i: nat, j: nat)
    requires Shape(basic, matchers, ephemerals)
    requires i < |basic| && j in ephemerals[i]
    ensures j < |basic|
    ensures Shape(basic, ResolvedMatchers(matchers, i, j), ResolvedEphemerals(ephemerals, i, j))
  {
    assert 0 <= i < |basic| && j in ephemerals[i];
    assert forall e | e in ephemerals[i] :: e < |basic| && IsEphemeral(basic[e]);
  }

  /** What `i` takes over from `j` is reachable from `i`. */
  lemma ResolveSound(basic: seq<BasicInstruction>, matchers: seq<set<nat>>, ephemerals: seq<set<nat>>, i: nat, j: nat)
    requires Shape(basic, matchers, ephemerals) && Sound(basic, matchers, ephemerals)
    requires i < |basic| && j in ephemerals[i]
    ensures j < |basic|
    ensures Shape(basic, ResolvedMatchers(matchers, i, j), ResolvedEphemerals(ephemerals, i, j))
    ensures Sound(basic, ResolvedMatchers(matchers, i, j), ResolvedEphemerals(ephemerals, i, j))
  {
    ResolveShape(basic, matchers, ephemerals, i, j);
    forall x | x in matchers[j] || x in ephemerals[j]
      ensures Reaches(basic, i, x)
    {
      var w1 :| IsWalk(basic, w1) && w1[0] == i && w1[|w1| - 1] == j;
      var w2 :| IsWalk(basic, w2) && w2[0] == j && w2[|w2| - 1] == x;
      WalkJoin(basic, w1, w2);
      var w := w1 + w2[1..];
      assert w[0] == i && w[|w| - 1] == x;
    }
  }

  /** A simple walk from `i` through `j` is covered by what `j` had. */
  lemma ResolveComplete(basic: seq<BasicInstruction>, matchers: seq<set<nat>>, ephemerals: seq<set<nat>>, i: nat, j: nat)
    requires Shape(basic, matchers, ephemerals) && Complete(basic, matchers, ephemerals)
    requires i < |basic| && j in ephemerals[i]
    ensures j < |basic|
    ensures Shape(basic, ResolvedMatchers(matchers, i, j), ResolvedEphemerals(ephemerals, i, j))
    ensures Complete(basic, ResolvedMatchers(matchers, i, j), ResolvedEphemerals(ephemerals, i, j))
  {
    ResolveShape(basic, matchers, ephemerals, i, j);
    var m2 := ResolvedMatchers(matchers, i, j);
    var e2 := ResolvedEphemerals(ephemerals, i, j);
    forall w | IsWalk(basic, w) && IsSimple(w) && !IsEphemeral(basic[w[|w| - 1]])
      ensures w[|w| - 1] in m2[w[0]] || exists k | 0 < k < |w| - 1 :: w[k] in e2[w[0]]
    {
      var last := w[|w| - 1];
      if w[0] == i && last !in matchers[i] {
        var k :| 0 < k < |w| - 1 && w[k] in ephemerals[i];
        if w[k] != j {
          assert w[k] in e2[i];
        } else {
          SimpleSuffix(basic, w, k);
          var s := w[k..];
          assert s[0] == j && s[|s| - 1] == last;
          if last !in matchers[j] {
            var k2 :| 0 < k2 < |s| - 1 && s[k2] in ephemerals[j];
            assert w[k + k2] in e2[i];
          }
        }
      }
    }
  }

  /** The part of a walk after an inner node is a walk. */
  lemma WalkSuffix(basic: seq<BasicInstruction>, w: seq<nat>, a: nat)
    requires IsWalk(basic, w) && 0 < a < |w| - 1
    ensures IsWalk(basic, w[a..]) && w[a..][0] == w[a] && w[a..][|w| - a - 1] == w[|w| - 1]
  {
    var s := w[a..];
    forall k | 0 <= k < |s| - 1
      ensures s[k + 1] in NextProgramCounters(basic[s[k]], s[k])
    {
      assert s[k] == w[a + k] && s[k + 1] == w[a + k + 1];
    }
  }

  /** Cutting the loop between two visits of the same inner node. */
  lemma WalkCut(basic: seq<BasicInstruction>, w: seq<nat>, a: nat, b: nat)
    requires IsWalk(basic, w) && 0 < a < b < |w| - 1 && w[a] == w[b]
    ensures IsWalk(basic, w[..a] + w[b..])
    ensures (w[..a] + w[b..])[0] == w[0] && (w[..a] + w[b..])[|w| - b + a - 1] == w[|w| - 1]
  {
    var s := w[..a] + w[b..];
    forall k | 0 <= k < |s| - 1
      ensures s[k + 1] in NextProgramCounters(basic[s[k]], s[k])
    {
      if k < a - 1 {
        assert s[k] == w[k] && s[k + 1] == w[k + 1];
      } else if k == a - 1 {
        assert s[k] == w[a - 1] && s[k + 1] == w[b];
      } else {
        assert s[k] == w[k - a + b] && s[k + 1] == w[k - a + b + 1];
      }
    }
    forall k | 0 < k < |s| - 1
      ensures IsEphemeral(basic[s[k]])
    {
      if k >= a {
        assert s[k] == w[k - a + b];
      }
    }
  }

  /** A walk to a matcher can be shortened to a simple walk with the same ends. */
  lemma {:induction false} Shorten(basic: seq<BasicInstruction>, w: seq<nat>)
    requires IsWalk(basic, w) && !IsEphemeral(basic[w[|w| - 1]])
    ensures exists s :: IsWalk(basic, s) && IsSimple(s) && s[0] == w[0] && s[|s| - 1] == w[|w| - 1]
    decreases |w|
  {
    if a :| 0 < a < |w| - 1 && w[a] == w[0] {
      WalkSuffix(basic, w, a);
      Shorten(basic, w[a..]);
    } else if a, b :| 0 < a < b < |w| - 1 && w[a] == w[b] {
      WalkCut(basic, w, a, b);
      Shorten(basic, w[..a] + w[b..]);
    } else {
      assert IsSimple(w);
    }
  }

  /** When nothing is pending any more, every matcher set is exactly the set of
      matchers reachable through ephemeral-only walks. */
  lemma Settled(basic: seq<BasicInstruction>, matchers: seq<set<nat>>, ephemerals: seq<set<nat>>)
    requires Inv(basic, matchers, ephemerals)
    requires forall i | 0 <= i < |basic| :: ephemerals[i] == {}
    ensures forall i | 0 <= i < |basic| :: matchers[i] == Reachable(basic, i)
  {
    forall i | 0 <= i < |basic|
      ensures matchers[i] == Reachable(basic, i)
    {
      forall m | m in Reachable(basic, i)
        ensures m in matchers[i]
      {
        var w :| IsWalk(basic, w) && w[0] == i && w[|w| - 1] == m;
        Shorten(basic, w);
        var s :| IsWalk(basic, s) && IsSimple(s) && s[0] == w[0] && s[|s| - 1] == w[|w| - 1];
      }
    }
  }

  /** A Success instruction continues nowhere. */
  lemma SuccessReachesNothing(basic: seq<BasicInstruction>, i: nat)
    requires i < |basic| && basic[i].BasicSuccess?
    ensures Reachable(basic, i) == {}
  {
    forall m | m in Reachable(basic, i)
      ensures false
    {
      var w :| IsWalk(basic, w) && w[0] == i && w[|w| - 1] == m;
      WalkFirstStep(basic, w);
    }
  }

  lemma WalkFirstStep(basic: seq<BasicInstruction>, w: seq<nat>)
    requires IsWalk(basic, w)
    ensures w[1] in NextProgramCounters(basic[w[0]], w[0])
  {
    assert w[0 + 1] in NextProgramCounters(basic[w[0]], w[0]);
  }
}
