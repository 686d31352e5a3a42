/** `Trie2`: a persistent map from 32-bit hashes to values, the same eight
    levels of sixteen slots as `Trie`, but `put` copies the blocks on the
    path instead of writing into them.  A level's child is either a shared
    `none()` node (no array yet) or a node with sixteen slots; the leaf level
    holds the values themselves, and a slot equal to the trie's `empty` value
    counts as vacant.  Every level caches the number of non-vacant leaf
    slots beneath it in `elementCount`. */
module PersistentTries {
  import opened Nibbles

  /** A Java reference to a `T`: `null` or an object, compared with `equals`. */
  datatype Nullable<T> = Null | Obj(value: T)

  /** A node of any level: `None` is the level's shared `none()` node (its
      `nodes` array is null), `Branch` a node of levels 1 to 7 over sixteen
      children, `Leaf` a `Level8` over sixteen values. */
  datatype Level<T> =
    | None
    | Branch(children: seq<Level<T>>, elementCount: int)
    | Leaf(slots: seq<Nullable<T>>, elementCount: int)

  /** `node.elementCount`; the shared `none()` nodes have 0. */
  function Count<T(==)>(node: Level<T>): int
  {
    if node.None? then 0 else node.elementCount
  }

  /** The sum of the children's counts, added left to right. */
  function Total<T(==)>(children: seq<Level<T>>): int
  {
    if |children| == 0 then 0 else Total(children[..|children| - 1]) + Count(children[|children| - 1])
  }

  /** How many slots differ from `empty`. */
  function Occupied<T(==)>(slots: seq<Nullable<T>>, empty: Nullable<T>): nat
  {
    if |slots| == 0 then 0
    else Occupied(slots[..|slots| - 1], empty) + (if slots[|slots| - 1] != empty then 1 else 0)
  }

  /** A well-formed node of level `level + 1`: levels 1 to 7 hold sixteen
      well-formed children one level down, level 8 sixteen values, and every
      cached count is the number of non-`empty` leaf slots beneath. */
  ghost predicate Well<T>(node: Level<T>, level: nat, empty: Nullable<T>)
    decreases node
  {
    match node
    case None => level < 8
    case Branch(children, n) =>
      && level < 7 && |children| == 16 && n == Total(children)
      && forall i | 0 <= i < 16 :: Well(children[i], level + 1, empty)
    case Leaf(slots, n) => level == 7 && |slots| == 16 && n == Occupied(slots, empty)
  }

  /** The value the leaf slot at `key` (a hash's `Path`) below `node` holds,
      `empty` when a `none()` node lies on the way. */
  ghost function Held<T>(node: Level<T>, level: nat, empty: Nullable<T>, key: seq<bv32>): Nullable<T>
    requires Well(node, level, empty) && IsKey(key)
    decreases node
  {
    match node
    case None => empty
    case Branch(children, _) => Held(children[key[level]], level + 1, empty, key)
    case Leaf(slots, _) => slots[key[level]]
  }

  /** Every node on the way from `node` to the leaf slot at `key` has its
      array. */
  ghost predicate Reaches<T>(node: Level<T>, level: nat, empty: Nullable<T>, key: seq<bv32>)
    requires Well(node, level, empty) && IsKey(key)
    decreases node
  {
    match node
    case None => false
    case Branch(children, _) => Reaches(children[key[level]], level + 1, empty, key)
    case Leaf(_, _) => true
  }

  /** Two keys select the same slots from level `level` down. */
  ghost predicate Agrees(other: seq<bv32>, key: seq<bv32>, level: nat)
    requires IsKey(other) && IsKey(key) && level < 8
  {
    other[level..] == key[level..]
  }

  /** Keys agree from a level down when they agree at the level and below
      it. */
  lemma AgreesStep(other: seq<bv32>, key: seq<bv32>, level: nat)
    requires IsKey(other) && IsKey(key) && level < 8
    ensures Agrees(other, key, level)
      <==> other[level] == key[level] && (level == 7 || Agrees(other, key, level + 1))
  {
    assert other[level..] == [other[level]] + other[level + 1..];
    assert key[level..] == [key[level]] + key[level + 1..];
  }

  /** The node a `LevelN(parent)` constructor builds: sixteen `none()`
      children, or for `Level8` sixteen `empty` values, and a count of 0. */
  function Fresh<T(==)>(level: nat, empty: Nullable<T>): (node: Level<T>)
    requires level < 8
    ensures Well(node, level, empty) && node != None && Count(node) == 0
  {
    if level < 7 then
      var children := seq(16, _ => None);
      assert Total(children[..15]) == 0 by { TotalNone(children[..15]); }
      Branch(children, 0)
    else
      var slots := seq(16, _ => empty);
      assert Occupied(slots, empty) == 0 by { OccupiedNone(slots, empty); }
      Leaf(slots, 0)
  }

  /** Below a fresh node every slot holds `empty`. */
  lemma FreshHeld<T>(level: nat, empty: Nullable<T>, key: seq<bv32>)
    requires level < 8 && IsKey(key)
    ensures Held(Fresh(level, empty), level, empty, key) == empty
  {
  }

  lemma {:induction false} TotalNone<T>(children: seq<Level<T>>)
    requires forall i | 0 <= i < |children| :: children[i] == None
    ensures Total(children) == 0
  {
    if |children| > 0 {
      TotalNone(children[..|children| - 1]);
    }
  }

  lemma {:induction false} OccupiedNone<T>(slots: seq<Nullable<T>>, empty: Nullable<T>)
    requires forall i | 0 <= i < |slots| :: slots[i] == empty
    ensures Occupied(slots, empty) == 0
  {
    if |slots| > 0 {
      OccupiedNone(slots[..|slots| - 1], empty);
    }
  }

  /** Replacing one child changes the sum by the difference of the two
      counts. */
  lemma {:induction false} TotalUpdate<T>(children: seq<Level<T>>, i: nat, child: Level<T>)
    requires i < |children|
    ensures Total(children[i := child]) == Total(children) - Count(children[i]) + Count(child)
    decreases |children|
  {
    var last := |children| - 1;
    if i < last {
      assert children[i := child][..last] == children[..last][i := child];
      TotalUpdate(children[..last], i, child);
    } else {
      assert children[i := child][..last] == children[..last];
    }
  }

  /** Replacing one slot changes the number of occupied slots by at most
      one, as the old and new values are or are not `empty`. */
  lemma {:induction false} OccupiedUpdate<T>(slots: seq<Nullable<T>>, empty: Nullable<T>, i: nat, value: Nullable<T>)
    requires i < |slots|
    ensures Occupied(slots[i := value], empty)
      == Occupied(slots, empty) - (if slots[i] != empty then 1 else 0) + (if value != empty then 1 else 0)
    decreases |slots|
  {
    var last := |slots| - 1;
    if i < last {
      assert slots[i := value][..last] == slots[..last][i := value];
      OccupiedUpdate(slots[..last], empty, i, value);
    } else {
      assert slots[i := value][..last] == slots[..last];
    }
  }

  /** The `elementCount` loop of `LevelN(nodes_)`, levels 1 to 7. */
  method SumCounts<T(==)>(children: seq<Level<T>>) returns (n: int)
    ensures n == Total(children)
  {
    n := 0;
    var i := 0;
    while i < |children|
      invariant 0 <= i <= |children|
      invariant n == Total(children[..i])
    {
      assert children[..i + 1][..i] == children[..i];
      n := n + Count(children[i]);
      i := i + 1;
    }
    assert children[..i] == children;
  }

  /** The `elementCount` loop of `Level8(parent, nodes_)`: the slots that are
      not `parent.empty`. */
  method CountOccupied<T(==)>(slots: seq<Nullable<T>>, empty: Nullable<T>) returns (n: int)
    ensures n == Occupied(slots, empty)
  {
    n := 0;
    var i := 0;
    while i < |slots|
      invariant 0 <= i <= |slots|
      invariant n == Occupied(slots[..i], empty)
    {
      assert slots[..i + 1][..i] == slots[..i];
      if slots[i] != empty {
        n := n + 1;
      }
      i := i + 1;
    }
    assert slots[..i] == slots;
  }

  /** `r` is `node` with the leaf slot at `key` set to `value`: it is
      well-formed and has its array; it holds `value` at every key that
      selects the same slots from this level down and what `node` held at
      every other; it is `node` itself exactly when every node on the path
      already had its array and the slot already held `value`; and its count
      moves by one as the old and new values are or are not `empty`. */
  ghost predicate Updated<T>(node: Level<T>, r: Level<T>, level: nat, empty: Nullable<T>, key: seq<bv32>, value: Nullable<T>)
    requires Well(node, level, empty) && IsKey(key) && level < 8
  {
    && Well(r, level, empty) && r != None
    && (forall other | IsKey(other) :: Held(r, level, empty, other)
          == if Agrees(other, key, level) then value else Held(node, level, empty, other))
    && (r == node <==> Reaches(node, level, empty, key) && Held(node, level, empty, key) == value)
    && Count(r) == Count(node)
         - (if Held(node, level, empty, key) != empty then 1 else 0) + (if value != empty then 1 else 0)
  }

  /** `LevelN.put` for levels 1 to 8.  A `none()` node is first replaced by
      a fresh one (`new LevelN(parent).put(...)`). */
  method PutLevel<T(==)>(node: Level<T>, level: nat, empty: Nullable<T>, hash: bv32, value: Nullable<T>)
    returns (r: Level<T>)
    requires Well(node, level, empty)
    ensures (PathShape(hash); Updated(node, r, level, empty, Path(hash), value))
    decreases 8 - level, if node.None? then 2 else 1
  {
    PathShape(hash);
    match node
    case None =>
      var initial := Fresh(level, empty);
      r := PutLevel(initial, level, empty, hash, value);
      forall other | IsKey(other)
        ensures Held(initial, level, empty, other) == Held(node, level, empty, other)
      {
        FreshHeld(level, empty, other);
      }
    case Branch(_, _) =>
      r := PutBranch(node, level, empty, hash, value);
    case Leaf(_, _) =>
      r := PutLeaf(node, level, empty, hash, value);
  }

  /** `put` on levels 1 to 7: the node itself when the child on the path
      comes back unchanged, otherwise a copy of the sixteen children with
      that one replaced and the count recomputed (`new LevelN(nodes_)`). */
  method PutBranch<T(==)>(node: Level<T>, level: nat, empty: Nullable<T>, hash: bv32, value: Nullable<T>)
    returns (r: Level<T>)
    requires node.Branch? && Well(node, level, empty)
    ensures (PathShape(hash); Updated(node, r, level, empty, Path(hash), value))
    decreases 8 - level, 0
  {
    PathShape(hash);
    PathAt(hash, level);
    var index := Nibble(hash, level);
    var child := node.children[index];
    var child' := PutLevel(child, level + 1, empty, hash, value);
    if child' == child {
      r := node;
    } else {
      var children' := node.children[index := child'];
      var n := SumCounts(children');
      r := Branch(children', n);
    }
    BranchUpdated(node, child', r, level, empty, Path(hash), value);
  }

  /** The branch case of `put`, given that the child on the path was
      updated. */
  lemma BranchUpdated<T>(node: Level<T>, child': Level<T>, r: Level<T>, level: nat, empty: Nullable<T>,
                         key: seq<bv32>, value: Nullable<T>)
    requires node.Branch? && Well(node, level, empty) && IsKey(key)
    requires Updated(node.children[key[level]], child', level + 1, empty, key, value)
    requires r == if child' == node.children[key[level]] then node
      else Branch(node.children[key[level] := child'], Total(node.children[key[level] := child']))
    ensures Updated(node, r, level, empty, key, value)
  {
    BranchCount(node, child', r, level, empty, key, value);
    BranchHeld(node, child', r, level, empty, key, value);
  }

  /** The copied branch is well-formed and its count moves with the
      child's. */
  lemma BranchCount<T>(node: Level<T>, child': Level<T>, r: Level<T>, level: nat, empty: Nullable<T>,
                       key: seq<bv32>, value: Nullable<T>)
    requires node.Branch? && Well(node, level, empty) && IsKey(key)
    requires Updated(node.children[key[level]], child', level + 1, empty, key, value)
    requires r == if child' == node.children[key[level]] then node
      else Branch(node.children[key[level] := child'], Total(node.children[key[level] := child']))
    ensures Well(r, level, empty) && r != None
    ensures Count(r) == Count(node)
      - (if Held(node, level, empty, key) != empty then 1 else 0) + (if value != empty then 1 else 0)
  {
    if r != node {
      var index := key[level];
      TotalUpdate(node.children, index as nat, child');
      var children' := node.children[index := child'];
      forall i | 0 <= i < 16
        ensures Well(children'[i], level + 1, empty)
      {
      }
    }
  }

  /** The copied branch holds `value` at the keys that agree with `key` from
      this level down and what `node` held elsewhere. */
  lemma BranchHeld<T>(node: Level<T>, child': Level<T>, r: Level<T>, level: nat, empty: Nullable<T>,
                      key: seq<bv32>, value: Nullable<T>)
    requires node.Branch? && Well(node, level, empty) && IsKey(key)
    requires Updated(node.children[key[level]], child', level + 1, empty, key, value)
    requires r == if child' == node.children[key[level]] then node
      else Branch(node.children[key[level] := child'], Total(node.children[key[level] := child']))
    ensures (BranchCount(node, child', r, level, empty, key, value);
      forall other | IsKey(other) :: Held(r, level, empty, other)
        == if Agrees(other, key, level) then value else Held(node, level, empty, other))
  {
    BranchCount(node, child', r, level, empty, key, value);
    forall other | IsKey(other)
      ensures Held(r, level, empty, other)
        == if Agrees(other, key, level) then value else Held(node, level, empty, other)
    {
      AgreesStep(other, key, level);
    }
  }

  /** `Level8.put`: the node itself when `value` is (or equals) the value in
      the slot, otherwise a copy of the sixteen values with that one replaced
      and the count recomputed (`new Level8(parent, nodes_)`). */
  method PutLeaf<T(==)>(node: Level<T>, level: nat, empty: Nullable<T>, hash: bv32, value: Nullable<T>)
    returns (r: Level<T>)
    requires node.Leaf? && Well(node, level, empty)
    ensures (PathShape(hash); Updated(node, r, level, empty, Path(hash), value))
  {
    PathShape(hash);
    PathAt(hash, level);
    var index := Nibble(hash, level);
    if value == node.slots[index] {
      r := node;
    } else {
      var slots' := node.slots[index := value];
      var n := CountOccupied(slots', empty);
      r := Leaf(slots', n);
    }
    LeafUpdated(node, r, level, empty, Path(hash), value);
  }

  /** The leaf case of `put`. */
  lemma LeafUpdated<T>(node: Level<T>, r: Level<T>, level: nat, empty: Nullable<T>, key: seq<bv32>, value: Nullable<T>)
    requires node.Leaf? && Well(node, level, empty) && IsKey(key)
    requires r == if value == node.slots[key[level]] then node
      else Leaf(node.slots[key[level] := value], Occupied(node.slots[key[level] := value], empty))
    ensures Updated(node, r, level, empty, key, value)
  {
    if r != node {
      OccupiedUpdate(node.slots, empty, key[level] as nat, value);
    }
    forall other | IsKey(other)
      ensures Held(r, level, empty, other)
        == if Agrees(other, key, level) then value else Held(node, level, empty, other)
    {
      AgreesStep(other, key, level);
    }
  }

  /** `LevelN.get` below a node: `defaultValue` when a `none()` node lies on
      the way or the leaf slot is `empty`, the slot's value otherwise. */
  function Find<T(==)>(node: Level<T>, level: nat, empty: Nullable<T>, hash: bv32, defaultValue: Nullable<T>): (r: Nullable<T>)
    requires Well(node, level, empty)
    ensures (PathShape(hash);
      r == if Held(node, level, empty, Path(hash)) == empty then defaultValue else Held(node, level, empty, Path(hash)))
    decreases node
  {
    PathShape(hash);
    PathAt(hash, level);
    match node
    case None => defaultValue
    case Branch(children, _) => Find(children[Nibble(hash, level)], level + 1, empty, hash, defaultValue)
    case Leaf(slots, _) =>
      var slot := slots[Nibble(hash, level)];
      if slot == empty then defaultValue else slot
  }

  /** `LevelN.contains` below a node: false when a `none()` node lies on the
      way or the leaf slot is `empty`; otherwise whether the slot equals
      `element`, and always when `element` is null. */
  function Has<T(==)>(node: Level<T>, level: nat, empty: Nullable<T>, hash: bv32, element: Nullable<T>): (r: bool)
    requires Well(node, level, empty)
    ensures (PathShape(hash);
      r <==> (Held(node, level, empty, Path(hash)) != empty
        && (Held(node, level, empty, Path(hash)) == element || element == Null)))
    decreases node
  {
    PathShape(hash);
    PathAt(hash, level);
    match node
    case None => false
    case Branch(children, _) => Has(children[Nibble(hash, level)], level + 1, empty, hash, element)
    case Leaf(slots, _) =>
      var slot := slots[Nibble(hash, level)];
      if slot == empty then false else (slot != Null && slot == element) || element == Null
  }

  /** A `Trie2`: its `empty` value, its root `Level1` and the root's count. */
  datatype Trie2<T> = Trie2(empty: Nullable<T>, root: Level<T>, elementCount: int)

  /** The invariant every `Trie2` keeps: a well-formed root with its array,
      and the trie's count copied from the root's. */
  ghost predicate Valid<T>(t: Trie2<T>)
  {
    Well(t.root, 0, t.empty) && t.root != None && t.elementCount == Count(t.root)
  }

  /** `new Trie2(empty)`: a root of sixteen `none()` children and no
      elements. */
  function NewTrie2<T(==)>(empty: Nullable<T>): (t: Trie2<T>)
    ensures Valid(t) && t.empty == empty && t.elementCount == 0
  {
    Trie2(empty, Fresh(0, empty), 0)
  }

  /** `Trie2.get`. */
  function Get<T(==)>(t: Trie2<T>, hash: bv32, defaultValue: Nullable<T>): (r: Nullable<T>)
    requires Valid(t)
    ensures (PathShape(hash);
      r == if Held(t.root, 0, t.empty, Path(hash)) == t.empty then defaultValue else Held(t.root, 0, t.empty, Path(hash)))
  {
    Find(t.root, 0, t.empty, hash, defaultValue)
  }

  /** `Trie2.contains`. */
  function Contains<T(==)>(t: Trie2<T>, hash: bv32, element: Nullable<T>): (r: bool)
    requires Valid(t)
    ensures (PathShape(hash);
      r <==> (Held(t.root, 0, t.empty, Path(hash)) != t.empty
        && (Held(t.root, 0, t.empty, Path(hash)) == element || element == Null)))
  {
    Has(t.root, 0, t.empty, hash, element)
  }

  /** Nothing is stored in a new trie. */
  lemma NewTrie2Empty<T>(empty: Nullable<T>, hash: bv32, defaultValue: Nullable<T>, element: Nullable<T>)
    ensures Get(NewTrie2(empty), hash, defaultValue) == defaultValue
    ensures !Contains(NewTrie2(empty), hash, element)
  {
  }

  /** `Trie2.put`: the receiver itself when the root comes back unchanged,
      otherwise a new trie over the new root with the root's count.  The
      receiver is a value and is left as it was. */
  method Put<T(==)>(t: Trie2<T>, hash: bv32, value: Nullable<T>) returns (t': Trie2<T>)
    requires Valid(t)
    ensures Valid(t') && t'.empty == t.empty
    ensures forall other, d :: (Get(t', other, d)
      == if other == hash then (if value == t.empty then d else value) else Get(t, other, d))
    ensures (PathShape(hash);
      && (t' == t <==> Held(t.root, 0, t.empty, Path(hash)) == value && Reaches(t.root, 0, t.empty, Path(hash)))
      && t'.elementCount == t.elementCount
           - (if Held(t.root, 0, t.empty, Path(hash)) != t.empty then 1 else 0) + (if value != t.empty then 1 else 0))
  {
    PathShape(hash);
    var root' := PutLevel(t.root, 0, t.empty, hash, value);
    if root' == t.root {
      t' := t;
    } else {
      t' := Trie2(t.empty, root', Count(root'));
    }
    forall other, d
      ensures Get(t', other, d)
        == if other == hash then (if value == t.empty then d else value) else Get(t, other, d)
    {
      PathShape(other);
      PathInjective(other, hash);
      assert Path(other)[0..] == Path(other) && Path(hash)[0..] == Path(hash);
    }
  }
}
