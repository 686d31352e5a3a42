/** The slot arithmetic both hash tries share: a 32-bit hash read four bits at a
    time from the most significant end, one nibble per level.  Masks and shifts
    are Java `int`s, so they are 32-bit vectors here. */
module Nibbles {
  /** `START_MASK` (and `Level1.MASK`): the top four bits. */
  const START_MASK: bv32 := 0xF000_0000

  /** `START_SHIFT`: the shift that brings the top nibble down. */
  const START_SHIFT: bv32 := 28

  /** `SHIFT_STEP`: bits per level. */
  const SHIFT_STEP: bv32 := 4

  /** `BLOCK_COUNT`: levels of 16-slot blocks above the leaf block. */
  const BLOCK_COUNT: nat := 7

  /** `(hash & mask) >>> shift`: the slot index both tries compute. */
  function Index(hash: bv32, mask: bv32, shift: bv32): bv32
    requires shift < 32
  {
    (hash & mask) >> shift
  }

  /** The mask at `level` (0 for the root): `START_MASK` moved down four bits
      per level, as the masks of `Level1` to `Level8` are. */
  function Mask(level: nat): bv32
    requires level < 8
  {
    if level == 0 then 0xF000_0000 else if level == 1 then 0x0F00_0000
    else if level == 2 then 0x00F0_0000 else if level == 3 then 0x000F_0000
    else if level == 4 then 0x0000_F000 else if level == 5 then 0x0000_0F00
    else if level == 6 then 0x0000_00F0 else 0x0000_000F
  }

  /** The shift at `level`: `START_SHIFT` less four per level, as the shifts
      of `Level1` to `Level8` are. */
  function Shift(level: nat): bv32
    requires level < 8
  {
    if level == 0 then 28 else if level == 1 then 24
    else if level == 2 then 20 else if level == 3 then 16
    else if level == 4 then 12 else if level == 5 then 8
    else if level == 6 then 4 else 0
  }

  /** The slot a hash selects at `level`. */
  function Nibble(hash: bv32, level: nat): bv32
    requires level < 8
  {
    if level == 0 then Index(hash, 0xF000_0000, 28)
    else if level == 1 then Index(hash, 0x0F00_0000, 24)
    else if level == 2 then Index(hash, 0x00F0_0000, 20)
    else if level == 3 then Index(hash, 0x000F_0000, 16)
    else if level == 4 then Index(hash, 0x0000_F000, 12)
    else if level == 5 then Index(hash, 0x0000_0F00, 8)
    else if level == 6 then Index(hash, 0x0000_00F0, 4)
    else Index(hash, 0x0000_000F, 0)
  }

  lemma NibbleBound(hash: bv32, level: nat)
    requires level < 8
    ensures Nibble(hash, level) < 16
  {
    if level == 0 {
    } else if level == 1 {
    } else if level == 2 {
    } else if level == 3 {
    } else if level == 4 {
    } else if level == 5 {
    } else if level == 6 {
    } else {
    }
  }

  /** The walk starts from `START_MASK` and `START_SHIFT`. */
  lemma WalkStart()
    ensures Mask(0) == START_MASK && Shift(0) == START_SHIFT
  {
  }

  /** One step of the source's walk, which keeps a running `mask` and
      `shift`: the slot it reads is this level's nibble. */
  lemma WalkStep(hash: bv32, level: nat, mask: bv32, shift: bv32)
    requires level < 8
    requires mask == Mask(level) && shift == Shift(level)
    ensures shift < 32 && Index(hash, mask, shift) == Nibble(hash, level)
  {
    if level == 0 {
    } else if level == 1 {
    } else if level == 2 {
    } else if level == 3 {
    } else if level == 4 {
    } else if level == 5 {
    } else if level == 6 {
    } else {
    }
  }

  /** `shift -= SHIFT_STEP; mask >>>= SHIFT_STEP` gives the next level's mask
      and shift. */
  lemma MaskStep(level: nat)
    requires level < 7
    ensures Mask(level) >> SHIFT_STEP == Mask(level + 1)
    ensures Shift(level) - SHIFT_STEP == Shift(level + 1)
  {
    if level == 0 {
    } else if level == 1 {
    } else if level == 2 {
    } else if level == 3 {
    } else if level == 4 {
    } else if level == 5 {
    } else {
    }
  }

  /** A leaf position: eight slots, each below 16. */
  ghost predicate IsKey(key: seq<bv32>)
  {
    |key| == 8 && forall level | 0 <= level < 8 :: key[level] < 16
  }

  /** The slots a hash visits, root first. */
  function Path(hash: bv32): (p: seq<bv32>)
    ensures |p| == 8
  {
    [Nibble(hash, 0), Nibble(hash, 1), Nibble(hash, 2), Nibble(hash, 3),
     Nibble(hash, 4), Nibble(hash, 5), Nibble(hash, 6), Nibble(hash, 7)]
  }

  lemma PathAt(hash: bv32, level: nat)
    requires level < 8
    ensures Path(hash)[level] == Nibble(hash, level) < 16
  {
    NibbleBound(hash, level);
  }

  /** A hash's path is a leaf position. */
  lemma PathShape(hash: bv32)
    ensures IsKey(Path(hash))
  {
    forall level | 0 <= level < 8
      ensures Path(hash)[level] < 16
    {
      PathAt(hash, level);
    }
  }

  /** The walk's slot computation, `(hash & mask) >>> shift` with the running
      mask and shift of `level`: the hash's path at that level. */
  method SlotAt(hash: bv32, ghost level: nat, mask: bv32, shift: bv32) returns (index: bv32)
    requires level < 8 && mask == Mask(level) && shift == Shift(level)
    ensures index == Path(hash)[level] < 16
  {
    WalkStep(hash, level, mask, shift);
    PathAt(hash, level);
    index := Index(hash, mask, shift);
  }

  /** Eight nibbles determine the hash: two hashes share a leaf slot exactly
      when they are equal. */
  lemma PathInjective(hash: bv32, other: bv32)
    ensures Path(hash) == Path(other) <==> hash == other
  {
    if Path(hash) == Path(other) {
      assert Path(hash)[0] == Path(other)[0] && Path(hash)[1] == Path(other)[1];
      assert Path(hash)[2] == Path(other)[2] && Path(hash)[3] == Path(other)[3];
      assert Path(hash)[4] == Path(other)[4] && Path(hash)[5] == Path(other)[5];
      assert Path(hash)[6] == Path(other)[6] && Path(hash)[7] == Path(other)[7];
      NibblesDetermine(hash, other);
    }
  }

  lemma NibblesDetermine(hash: bv32, other: bv32)
    requires Nibble(hash, 0) == Nibble(other, 0) && Nibble(hash, 1) == Nibble(other, 1)
    requires Nibble(hash, 2) == Nibble(other, 2) && Nibble(hash, 3) == Nibble(other, 3)
    requires Nibble(hash, 4) == Nibble(other, 4) && Nibble(hash, 5) == Nibble(other, 5)
    requires Nibble(hash, 6) == Nibble(other, 6) && Nibble(hash, 7) == Nibble(other, 7)
    ensures hash == other
  {
  }
}
