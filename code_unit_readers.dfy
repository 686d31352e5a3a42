/** The two code-unit readers of `regex/internal/stream/impl`: one over a
    `CharSequence` and one over a big-endian byte stream. Each is a class whose
    position advances as it is read; `Tape()` is the run of units it will still
    deliver. */
module CodeUnitReaders {
  import opened Wrappers
  import opened Utf16

  type Byte = b: int | 0 <= b < 256

  /** Reads the chars of a sequence from a start index onward, then EOF forever. */
  class CodeUnitReaderFromCharSequence {
    const chars: seq<CodeUnit>
    var index: nat

    constructor (chars: seq<CodeUnit>, index: nat)
      ensures this.chars == chars && this.index == index
    {
      this.chars := chars;
      this.index := index;
    }

    /** The units still to come; a start index past the end leaves none. */
    ghost function Tape(): UnitTape
      reads this
    {
      UnitTape(if index < |chars| then chars[index..] else [], false)
    }

    method ReadCodeUnitOrEof() returns (r: UnitRead)
      modifies this
      ensures old(index) >= |chars| ==> r == UnitEof && index == old(index)
      ensures old(index) < |chars| ==> r == Unit(chars[old(index)]) && index == old(index) + 1
      ensures (r, Tape()) == ReadUnit(old(Tape()))
    {
      if index >= |chars| {
        return UnitEof;
      }
      r := Unit(chars[index]);
      assert chars[index + 1..] == chars[index..][1..];
      index := index + 1;
    }
  }

  /** The checked constructor: a negative start index is rejected, an index past
      the end is accepted. */
  method NewCodeUnitReaderFromCharSequence(chars: seq<CodeUnit>, index: int)
    returns (r: Result<CodeUnitReaderFromCharSequence>)
    ensures r.Err? <==> index < 0
    ensures r.Err? ==> r.message == "Invalid index."
    ensures r.Ok? ==> fresh(r.value) && r.value.chars == chars && r.value.index == index
    ensures r.Ok? && index >= |chars| ==> r.value.Tape() == UnitTape([], false)
  {
    if index < 0 {
      return Err("Invalid index.");
    }
    var reader := new CodeUnitReaderFromCharSequence(chars, index);
    return Ok(reader);
  }

  /** The code units a byte sequence stands for, two bytes per unit, most
      significant byte first (section 3.1 of RFC 2781); an odd last byte makes
      the run end in a "Corrupt stream." failure. */
  function BytesTape(bytes: seq<Byte>): (t: UnitTape)
    ensures |t.units| == |bytes| / 2
    ensures t.corrupt <==> |bytes| % 2 == 1
    ensures forall k :: 0 <= k < |t.units| ==> t.units[k] == (bytes[2 * k] as int) * 256 + bytes[2 * k + 1]
  {
    if |bytes| < 2 then UnitTape([], |bytes| == 1)
    else
      var rest := BytesTape(bytes[2..]);
      UnitTape([(bytes[0] as int) * 256 + bytes[1]] + rest.units, rest.corrupt)
  }

  /** Reads big-endian code units from a byte stream, modelled as the bytes it
      holds and the position of the next byte. */
  class CodeUnitReaderFromInputStream {
    const bytes: seq<Byte>
    var position: nat

    ghost predicate Valid()
      reads this
    {
      position <= |bytes|
    }

    constructor (bytes: seq<Byte>)
      ensures Valid() && this.bytes == bytes && position == 0
    {
      this.bytes := bytes;
      position := 0;
    }

    ghost function Tape(): UnitTape
      reads this
      requires Valid()
    {
      BytesTape(bytes[position..])
    }

    /** `InputStream.read()`: the next byte, or None (Java's -1) at the end. */
    method ReadByteOrEof() returns (b: Option<Byte>)
      requires Valid()
      modifies this
      ensures Valid()
      ensures old(position) == |bytes| ==> b == None && position == old(position)
      ensures old(position) < |bytes| ==> b == Some(bytes[old(position)]) && position == old(position) + 1
    {
      if position == |bytes| {
        return None;
      }
      b := Some(bytes[position]);
      position := position + 1;
    }

    method ReadCodeUnitOrEof() returns (r: UnitRead)
      requires Valid()
      modifies this
      ensures Valid()
      ensures old(position) == |bytes| ==> r == UnitEof && position == old(position)
      ensures old(position) + 1 == |bytes| ==> r == UnitCorrupt && position == |bytes|
      ensures old(position) + 2 <= |bytes| ==>
                r == Unit((bytes[old(position)] as int) * 256 + bytes[old(position) + 1]) && position == old(position) + 2
      ensures (r, Tape()) == ReadUnit(old(Tape()))
    {
      ghost var before := bytes[position..];
      var first := ReadByteOrEof();
      if first.None? {
        return UnitEof;
      }
      var second := ReadByteOrEof();
      if second.None? {
        return UnitCorrupt;
      }
      r := Unit((first.value as int) * 256 + second.value);
      assert bytes[position..] == before[2..];
    }
  }
}
