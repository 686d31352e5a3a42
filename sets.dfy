/** Ascending iteration over a finite set, as `BitSet.nextSetBit` does it. */
module Sets {

  /** Some member of a non-empty set. */
  lemma Pick(s: set<int>) returns (m: int)
    requires s != {}
    ensures m in s
  {
    if forall y :: y !in s {
      assert false;
    }
    var y :| y in s;
    m := y;
  }

  /** A least member of a non-empty finite set of integers, found by induction. */
  lemma LeastOf(s: set<int>) returns (m: int)
    requires s != {}
    ensures m in s && forall x | x in s :: m <= x
  {
    var y := Pick(s);
    if s == {y} {
      m := y;
    } else {
      var r := s - {y};
      var k := LeastOf(r);
      m := if y < k then y else k;
      forall x | x in s
        ensures m <= x
      {
        if x != y {
          assert x in r;
        }
      }
    }
  }

  /** A non-empty finite set of integers has a least member. */
  lemma MinimumExists(s: set<int>)
    requires s != {}
    ensures exists m :: m in s && forall x | x in s :: m <= x
  {
    var m := LeastOf(s);
  }

  /** A non-empty finite set of naturals has a least member. */
  lemma NatMinimumExists(s: set<nat>)
    requires s != {}
    ensures exists m: nat :: m in s && forall x | x in s :: m <= x
  {
    var m := LeastOf(s);
    assert m in s;
  }

  /** The least member of a non-empty finite set. */
  ghost function Minimum(s: set<int>): (m: int)
    requires s != {}
    ensures m in s && forall x | x in s :: m <= x
  {
    MinimumExists(s);
    var m :| m in s && forall x | x in s :: m <= x; m
  }

  /** The members of a finite set of naturals in ascending order: the order in
      which a `BitSet` is walked with `nextSetBit`. */
  ghost function Ascending(s: set<nat>): (r: seq<nat>)
    ensures |r| == |s|
    ensures forall x :: x in r <==> x in s
    decreases |s|
  {
    if s == {} then []
    else
      var m: nat := Minimum(s);
      [m] + Ascending(s - {m})
  }

  /** The walk starts at the least member and continues over the rest. */
  lemma AscendingFirst(s: set<nat>, q: nat)
    requires q in s && forall x | x in s :: q <= x
    ensures Ascending(s) == [q] + Ascending(s - {q})
  {
    assert Minimum(s) == q;
  }

  /** Walking a bit set visits its members in strictly increasing order, so
      each exactly once. */
  lemma {:induction false} AscendingSorted(s: set<nat>)
    ensures forall i, j | 0 <= i < j < |Ascending(s)| :: Ascending(s)[i] < Ascending(s)[j]
    decreases |s|
  {
    if s != {} {
      var m := Minimum(s);
      AscendingSorted(s - {m});
      var r := Ascending(s);
      var t := Ascending(s - {m});
      assert r == [m] + t;
      forall i, j | 0 <= i < j < |r|
        ensures r[i] < r[j]
      {
        if i == 0 {
          assert r[j] == t[j - 1] && r[j] in s - {m};
        } else {
          assert r[i] == t[i - 1] && r[j] == t[j - 1];
        }
      }
    }
  }
}
