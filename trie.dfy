/** `Trie`: a mutable map from 32-bit hashes to values, stored as a tree of
    16-slot arrays eight levels deep.  Each level consumes one nibble of the
    hash; the seven upper levels hold sub-arrays, the eighth holds values.  A
    slot nobody has written holds the shared `EMPTY` marker. */
module MutableTries {
  import opened Nibbles
  import opened Wrappers

  /** What a slot holds: the `EMPTY` marker, a sub-array, or a stored value. */
  datatype Cell<T> = Vacant | Inner(block: array<Cell<T>>) | Stored(value: T)

  /** A fresh block with every slot `EMPTY`: the fill loop of the constructor
      and of `put`. */
  method NewBlock<T>() returns (block: array<Cell<T>>)
    ensures fresh(block)
    ensures block.Length == 16
    ensures forall j | 0 <= j < 16 :: block[j] == Vacant
  {
    block := new Cell<T>[16];
    var j := 0;
    while j < 16
      invariant 0 <= j <= 16
      invariant forall k | 0 <= k < j :: block[k] == Vacant
    {
      block[j] := Vacant;
      j := j + 1;
    }
  }

  /** The value a path-keyed map holds for `hash`: what `get` reports. */
  ghost function ValueOf<T>(values: map<seq<bv32>, T>, hash: bv32): Option<T>
  {
    if Path(hash) in values then Some(values[Path(hash)]) else None
  }

  /** Storing under the path of `hash` changes the value seen for `hash`, to
      `value`, and for no other hash. */
  lemma StoreAtPath<T>(values: map<seq<bv32>, T>, hash: bv32, value: T, other: bv32)
    ensures ValueOf(values[Path(hash) := value], other)
      == if other == hash then Some(value) else ValueOf(values, other)
  {
    PathInjective(hash, other);
  }

  /** One step of `put`'s walk that meets `EMPTY`: `child`, a fresh block, is
      hung under slot `index` of `block`, the block at path `parent`. */
  datatype Graft<T> = Graft(block: array<Cell<T>>, parent: seq<bv32>, index: bv32, child: array<Cell<T>>)

  /** What `Store` writes: `value` into the leaf slot of `key`, in `block`,
      the leaf block of `key`. */
  datatype Deposit<T> = Deposit(block: array<Cell<T>>, key: seq<bv32>, value: T)

  class Trie<T> {
    /** The root block. */
    const nodes: array<Cell<T>>

    /** Every block, keyed by the slots that lead to it from the root. */
    ghost var Node: map<seq<bv32>, array<Cell<T>>>

    /** The stored values, keyed by the eight slots that lead to each: the
        last value put for a hash sits under `Path(hash)`, and distinct
        hashes have distinct paths (`PathInjective`). */
    ghost var Values: map<seq<bv32>, T>

    ghost var Repr: set<object>

    /** The blocks form a tree rooted at `nodes`: every key is at most seven
        slots long, the parent of every block has a block, and no block is
        shared by two keys. */
    ghost predicate Shape()
      reads this
    {
      && [] in Node && Node[[]] == nodes
      && (forall p {:trigger Node[p]} | p in Node :: |p| < 8 && Node[p].Length == 16 && Node[p] in Repr)
      && (forall p, i: bv32 | p + [i] in Node :: p in Node)
      && (forall p, q {:trigger Node[p], Node[q]} | p in Node && q in Node && p != q :: Node[p] != Node[q])
    }

    /** An upper block's slot holds the block one slot further down, or
        `EMPTY` when there is none. */
    ghost predicate Links()
      requires Shape()
      reads this, Repr
    {
      forall p, i: bv32 {:trigger Node[p][i]} | p in Node && |p| < 7 && i < 16 ::
        Node[p][i] == if p + [i] in Node then Inner(Node[p + [i]]) else Vacant
    }

    /** A leaf block's slot holds the value stored under its path, or `EMPTY`;
        every block on the path of a stored value exists. */
    ghost predicate Leaves()
      requires Shape()
      reads this, Repr
    {
      && (forall p, i: bv32 {:trigger Node[p][i]} | p in Node && |p| == 7 && i < 16 ::
            Node[p][i] == if p + [i] in Values then Stored(Values[p + [i]]) else Vacant)
      && (forall k {:trigger k in Values} | k in Values :: |k| == 8)
      && (forall k, n | k in Values && 0 <= n < 8 :: k[..n] in Node)
    }

    ghost predicate Valid()
      reads this, Repr
    {
      this in Repr && Shape() && Links() && Leaves()
    }

    /** The empty trie: a root block of 16 `EMPTY` slots. */
    constructor ()
      ensures Valid() && fresh(Repr)
      ensures Values == map[]
    {
      var block := NewBlock<T>();
      nodes := block;
      Node := map[[] := block];
      Values := map[];
      Repr := {this, block};
    }

    /** Following a sub-array reaches the block one slot further down the
        path; meeting `EMPTY` above the leaves means nothing is stored under
        the key. */
    lemma Descend(key: seq<bv32>, level: nat)
      requires Valid() && IsKey(key)
      requires level < 7 && key[..level] in Node
      ensures key[..level + 1] in Node ==>
        Node[key[..level]][key[level]] == Inner(Node[key[..level + 1]])
      ensures key[..level + 1] !in Node ==>
        Node[key[..level]][key[level]] == Vacant && key !in Values
    {
      assert key[..level + 1] == key[..level] + [key[level]];
    }

    /** The leaf slot of a key whose leaf block exists. */
    lemma AtLeaf(key: seq<bv32>)
      requires Valid() && IsKey(key) && key[..7] in Node
      ensures Node[key[..7]][key[7]] == if key in Values then Stored(Values[key]) else Vacant
    {
      assert key == key[..7] + [key[7]];
    }

    /** `contains`: whether `hash` was ever put. */
    method Contains(hash: bv32) returns (r: bool)
      requires Valid()
      ensures r <==> Path(hash) in Values
    {
      ghost var key := Path(hash);
      PathShape(hash);
      var block := nodes;
      var mask := START_MASK;
      var shift := START_SHIFT;
      WalkStart();
      var i := 0;
      while i < BLOCK_COUNT
        invariant 0 <= i <= 7
        invariant mask == Mask(i) && shift == Shift(i)
        invariant key[..i] in Node && block == Node[key[..i]]
      {
        Descend(key, i);
        var index := SlotAt(hash, i, mask, shift);
        var value := block[index];
        if value == Vacant {
          return false;
        }
        block := value.block;
        MaskStep(i);
        shift := shift - SHIFT_STEP;
        mask := mask >> SHIFT_STEP;
        i := i + 1;
      }
      AtLeaf(key);
      var index := SlotAt(hash, 7, mask, shift);
      var result := block[index];
      r := result != Vacant;
    }

    /** `get`: the value put for `hash`, or `defaultValue` when there is none. */
    method Get(hash: bv32, defaultValue: T) returns (r: T)
      requires Valid()
      ensures r == if Path(hash) in Values then Values[Path(hash)] else defaultValue
    {
      ghost var key := Path(hash);
      PathShape(hash);
      var block := nodes;
      var mask := START_MASK;
      var shift := START_SHIFT;
      WalkStart();
      var i := 0;
      while i < BLOCK_COUNT
        invariant 0 <= i <= 7
        invariant mask == Mask(i) && shift == Shift(i)
        invariant key[..i] in Node && block == Node[key[..i]]
      {
        Descend(key, i);
        var index := SlotAt(hash, i, mask, shift);
        var value := block[index];
        if value == Vacant {
          return defaultValue;
        }
        block := value.block;
        MaskStep(i);
        shift := shift - SHIFT_STEP;
        mask := mask >> SHIFT_STEP;
        i := i + 1;
      }
      AtLeaf(key);
      var index := SlotAt(hash, 7, mask, shift);
      var result := block[index];
      r := if result == Vacant then defaultValue else result.value;
    }

    /** Hangs a fresh all-`EMPTY` block under the slot that the walk for `key`
        finds `EMPTY` at `level`. */
    method Grow(block: array<Cell<T>>, ghost key: seq<bv32>, ghost level: nat, index: bv32)
      requires Valid() && IsKey(key) && level < 7 && index == key[level]
      requires key[..level] in Node && block == Node[key[..level]]
      requires key[..level + 1] !in Node
      modifies this, block
      ensures Valid()
      ensures Values == old(Values)
      ensures key[..level + 1] in Node && fresh(Node[key[..level + 1]])
      ensures Node == old(Node)[key[..level + 1] := Node[key[..level + 1]]]
      ensures Repr == old(Repr) + {Node[key[..level + 1]]}
    {
      ghost var p := key[..level];
      assert key[..level + 1] == p + [index];
      var child := NewBlock<T>();
      block[index] := Inner(child);
      Node := Node[p + [index] := child];
      Repr := Repr + {child};
      GrowValid(Graft(block, p, index, child));
    }

    /** What `Grow` did, in the state before it: the slot is `EMPTY` in an
        upper block and nothing hangs under it yet. */
    twostate predicate Before(new g: Graft<T>)
      reads this, Repr
    {
      && var p := g.parent;
      && old(Valid() && p in Node) && g.block == old(Node[p])
      && |g.parent| < 7 && g.index < 16 && g.parent + [g.index] !in old(Node)
      && fresh(g.child) && g.child.Length == 16
      && Node == old(Node)[g.parent + [g.index] := g.child] && Repr == old(Repr) + {g.child}
    }

    /** After `Grow`, the trie is valid again. */
    twostate lemma GrowValid(new g: Graft<T>)
      requires Before(g) && Values == old(Values)
      requires forall j | 0 <= j < 16 :: g.child[j] == Vacant
      requires g.block[g.index] == Inner(g.child)
      requires var p := g.parent; forall j: bv32 | j < 16 && j != g.index :: g.block[j] == old(Node[p][j])
      requires forall a: array<Cell<T>>, j | a in old(Repr) && a != g.block && 0 <= j < a.Length :: a[j] == old(a[j])
      ensures Valid()
    {
      GrowShape(g);
      GrowLinks(g);
      GrowLeaves(g);
    }

    /** After `Grow`, the blocks still form a tree. */
    twostate lemma GrowShape(new g: Graft<T>)
      requires Before(g)
      ensures Shape()
    {
      forall r, j: bv32 | r + [j] in Node
        ensures r in Node
      {
        if r + [j] == g.parent + [g.index] {
          assert r == (r + [j])[..|r|] == g.parent;
        }
      }
    }

    /** After `Grow`, the new block hangs under its slot and every other upper
        slot is as it was. */
    twostate lemma GrowLinks(new g: Graft<T>)
      requires Before(g) && Shape()
      requires forall j | 0 <= j < 16 :: g.child[j] == Vacant
      requires g.block[g.index] == Inner(g.child)
      requires var p := g.parent; forall j: bv32 | j < 16 && j != g.index :: g.block[j] == old(Node[p][j])
      requires forall a: array<Cell<T>>, j | a in old(Repr) && a != g.block && 0 <= j < a.Length :: a[j] == old(a[j])
      ensures Links()
    {
      ghost var p, q := g.parent, g.parent + [g.index];
      forall j: bv32 | |q| < 7 && j < 16
        ensures g.child[j] == if q + [j] in Node then Inner(Node[q + [j]]) else Vacant
      {
        assert q + [j] !in old(Node);
      }
      forall j: bv32 | j < 16
        ensures g.block[j] == if p + [j] in Node then Inner(Node[p + [j]]) else Vacant
      {
        assert (p + [j])[|p|] == j && q[|p|] == g.index;
      }
      forall r, j: bv32 | r in old(Node) && r != p && |r| < 7 && j < 16
        ensures Node[r][j] == if r + [j] in Node then Inner(Node[r + [j]]) else Vacant
      {
        assert (r + [j])[..|r|] == r;
        assert Node[r] == old(Node[r]) && Node[r] != g.block;
      }
    }

    /** After `Grow`, every leaf slot is as it was. */
    twostate lemma GrowLeaves(new g: Graft<T>)
      requires Before(g) && Shape() && Values == old(Values)
      requires forall j | 0 <= j < 16 :: g.child[j] == Vacant
      requires forall a: array<Cell<T>>, j | a in old(Repr) && a != g.block && 0 <= j < a.Length :: a[j] == old(a[j])
      ensures Leaves()
    {
      forall r, j: bv32 | r in Node && |r| == 7 && j < 16
        ensures Node[r][j] == if r + [j] in Values then Stored(Values[r + [j]]) else Vacant
      {
        if r == g.parent + [g.index] {
          assert (r + [j])[..7] == r;
        } else {
          assert Node[r] == old(Node[r]) && Node[r] != g.block;
        }
      }
    }

    /** Stores `value` in the leaf slot of `key`, whose leaf block exists. */
    method Store(block: array<Cell<T>>, ghost key: seq<bv32>, index: bv32, ghost hash: bv32, value: T)
      requires Valid() && key == Path(hash) && IsKey(key) && index == key[7]
      requires forall n | 0 <= n < 8 :: key[..n] in Node
      requires block == Node[key[..7]]
      modifies this, block
      ensures Valid() && Repr == old(Repr) && Node == old(Node)
      ensures Values == old(Values)[Path(hash) := value]
    {
      block[index] := Stored(value);
      Values := Values[key := value];
      StoreValid(Deposit(block, key, value));
    }

    /** After `Store`, the trie is valid again. */
    twostate lemma StoreValid(new d: Deposit<T>)
      requires old(Valid()) && Node == old(Node) && Repr == old(Repr)
      requires IsKey(d.key) && (forall n | 0 <= n < 8 :: d.key[..n] in Node) && d.block == Node[d.key[..7]]
      requires Values == old(Values)[d.key := d.value] && d.block[d.key[7]] == Stored(d.value)
      requires var p := d.key[..7]; forall j: bv32 | j < 16 && j != d.key[7] :: d.block[j] == old(Node[p][j])
      requires forall a: array<Cell<T>>, j | a in old(Repr) && a != d.block && 0 <= j < a.Length :: a[j] == old(a[j])
      ensures Valid()
    {
      StoreLinks(d);
      StoreLeaves(d);
    }

    /** Writing a leaf block leaves the upper blocks' links as they were. */
    twostate lemma StoreLinks(new d: Deposit<T>)
      requires old(Valid()) && Node == old(Node) && Repr == old(Repr)
      requires IsKey(d.key) && d.key[..7] in Node && d.block == Node[d.key[..7]]
      requires forall a: array<Cell<T>>, j | a in old(Repr) && a != d.block && 0 <= j < a.Length :: a[j] == old(a[j])
      ensures Shape() && Links()
    {
      forall p, j: bv32 | p in Node && |p| < 7 && j < 16
        ensures Node[p][j] == if p + [j] in Node then Inner(Node[p + [j]]) else Vacant
      {
        assert Node[p] != d.block;
      }
    }

    /** Writing the value into its leaf slot matches the leaf blocks to the
        new `Values`. */
    twostate lemma StoreLeaves(new d: Deposit<T>)
      requires old(Valid()) && Node == old(Node) && Repr == old(Repr) && Shape()
      requires IsKey(d.key) && (forall n | 0 <= n < 8 :: d.key[..n] in Node) && d.block == Node[d.key[..7]]
      requires Values == old(Values)[d.key := d.value] && d.block[d.key[7]] == Stored(d.value)
      requires var p := d.key[..7]; forall j: bv32 | j < 16 && j != d.key[7] :: d.block[j] == old(Node[p][j])
      requires forall a: array<Cell<T>>, j | a in old(Repr) && a != d.block && 0 <= j < a.Length :: a[j] == old(a[j])
      ensures Leaves()
    {
      var key := d.key;
      forall p, j: bv32 | p in Node && |p| == 7 && j < 16
        ensures Node[p][j] == if p + [j] in Values then Stored(Values[p + [j]]) else Vacant
      {
        if p == key[..7] {
          assert (p + [j] == key) <==> j == key[7] by {
            assert key == key[..7] + [key[7]];
          }
        } else {
          assert (p + [j])[..7] == p;
          assert Node[p] != d.block;
        }
      }
    }

    /** One level of `put`'s walk: the block one slot further down the path,
        hung there first if the slot is `EMPTY`. */
    method Advance(block: array<Cell<T>>, hash: bv32, ghost level: nat, mask: bv32, shift: bv32)
      returns (next: array<Cell<T>>)
      requires Valid() && level < 7 && mask == Mask(level) && shift == Shift(level)
      requires Path(hash)[..level] in Node && block == Node[Path(hash)[..level]]
      modifies this, block
      ensures Valid() && fresh(Repr - old(Repr)) && Values == old(Values)
      ensures Path(hash)[..level + 1] in Node && next == Node[Path(hash)[..level + 1]]
    {
      ghost var key := Path(hash);
      PathShape(hash);
      var index := SlotAt(hash, level, mask, shift);
      Descend(key, level);
      if block[index] == Vacant {
        Grow(block, key, level, index);
      }
      Descend(key, level);
      next := block[index].block;
    }

    /** Every prefix of a path that has a block has a block. */
    lemma {:induction false} Ancestors(key: seq<bv32>, n: nat)
      requires Shape() && n <= |key| && key[..n] in Node
      ensures forall m | 0 <= m <= n :: key[..m] in Node
    {
      if n > 0 {
        assert key[..n] == key[..n - 1] + [key[n - 1]];
        assert forall p, i: bv32 | p + [i] in Node :: p in Node;
        Ancestors(key, n - 1);
      }
    }

    /** `put`: records `value` for `hash`, creating the blocks its path lacks,
        and returns this trie. */
    method Put(hash: bv32, value: T) returns (r: Trie<T>)
      requires Valid()
      modifies this, Repr
      ensures Valid() && fresh(Repr - old(Repr))
      ensures Values == old(Values)[Path(hash) := value]
      ensures r == this
    {
      ghost var key := Path(hash);
      PathShape(hash);
      var block := nodes;
      var mask := START_MASK;
      var shift := START_SHIFT;
      WalkStart();
      var i := 0;
      while i < BLOCK_COUNT
        invariant 0 <= i <= 7
        invariant mask == Mask(i) && shift == Shift(i)
        invariant Valid() && fresh(Repr - old(Repr)) && Values == old(Values)
        invariant key[..i] in Node && block == Node[key[..i]]
      {
        block := Advance(block, hash, i, mask, shift);
        MaskStep(i);
        shift := shift - SHIFT_STEP;
        mask := mask >> SHIFT_STEP;
        i := i + 1;
      }
      Ancestors(key, 7);
      var index := SlotAt(hash, 7, mask, shift);
      Store(block, key, index, hash, value);
      r := this;
    }
  }
}
