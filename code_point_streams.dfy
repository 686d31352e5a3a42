/** The code-point layer of `regex/internal/stream/impl`: `DefaultCodePointReader`
    decodes UTF-16 from a code-unit reader, and `DefaultCodePointStream` is the
    memoised pull stream over it (`isEmpty`/`head`/`tail`).

    The value a stream node stands for is a `CpTape`: the code points from that
    node on, and whether the input then ends or is corrupt. `IsEmptyOf`, `HeadOf`
    and `TailOf` are the stream operations on that value; the class methods are
    proved to agree with them. */
module CodePointStreams {
  import opened Wrappers
  import opened Utf16
  import opened CodeUnitReaders

  const EMPTY_STREAM := "Empty stream."
  const CORRUPT_STREAM := "Corrupt stream."

  /** The first read of a stream standing for `t`. */
  function First(t: CpTape): CpRead
  {
    if |t.cps| > 0 then CodePoint(t.cps[0]) else if t.corrupt then CpCorrupt else CpEof
  }

  /** `isEmpty()` on a stream standing for `t`: true exactly at end of input. */
  function IsEmptyOf(t: CpTape): (r: Result<bool>)
    ensures r.Ok? <==> !(t.cps == [] && t.corrupt)
    ensures r.Ok? ==> (r.value <==> t.cps == [])
  {
    match First(t)
    case CpCorrupt => Err(CORRUPT_STREAM)
    case CpEof => Ok(true)
    case CodePoint(_) => Ok(false)
  }

  /** `head()` on a stream standing for `t`. */
  function HeadOf(t: CpTape): (r: Result<int>)
    ensures |t.cps| > 0 <==> r.Ok?
    ensures r.Ok? ==> r.value == t.cps[0]
    ensures t.cps == [] && !t.corrupt ==> r == Err(EMPTY_STREAM)
  {
    match First(t)
    case CpCorrupt => Err(CORRUPT_STREAM)
    case CpEof => Err(EMPTY_STREAM)
    case CodePoint(cp) => Ok(cp)
  }

  /** `tail()` on a stream standing for `t`: the rest after one code point, or
      the same stream at end of input. */
  function TailOf(t: CpTape): (r: Result<CpTape>)
    ensures r.Ok? <==> !(t.cps == [] && t.corrupt)
    ensures r.Ok? && |t.cps| > 0 ==> r.value.cps == t.cps[1..] && r.value.corrupt == t.corrupt
    ensures r.Ok? && t.cps == [] ==> r.value == t
  {
    match First(t)
    case CpCorrupt => Err(CORRUPT_STREAM)
    case CpEof => Ok(t)
    case CodePoint(_) => Ok(CpTape(t.cps[1..], t.corrupt))
  }

  /** The tape after the head is consumed (the tape itself at end of input). */
  function Rest(t: CpTape): CpTape
  {
    if |t.cps| > 0 then CpTape(t.cps[1..], t.corrupt) else t
  }

  /** One decoding step is the first element of the full decoding, and leaves a
      unit source that decodes to the rest. */
  lemma DecodeNextIsFirst(t: UnitTape)
    ensures DecodeNext(t).0 == First(DecodeAll(t))
    ensures !DecodeNext(t).0.CpCorrupt? ==> DecodeAll(DecodeNext(t).1) == Rest(DecodeAll(t))
  {
    var (read, rest) := DecodeNext(t);
    if read.CodePoint? {
      assert DecodeAll(t).cps[1..] == DecodeAll(rest).cps;
    }
  }

  /** The code-unit reader a code-point reader pulls from. */
  datatype CodeUnitSource =
    | FromCharSequence(chars: CodeUnitReaderFromCharSequence)
    | FromInputStream(bytes: CodeUnitReaderFromInputStream)
  {
    ghost function Objects(): set<object>
    {
      match this
      case FromCharSequence(r) => {r}
      case FromInputStream(r) => {r}
    }

    ghost predicate Valid()
      reads Objects()
    {
      FromInputStream? ==> bytes.Valid()
    }

    ghost function Tape(): UnitTape
      reads Objects()
      requires Valid()
    {
      match this
      case FromCharSequence(r) => r.Tape()
      case FromInputStream(r) => r.Tape()
    }
  }

  method ReadCodeUnitOrEof(source: CodeUnitSource) returns (r: UnitRead)
    requires source.Valid()
    modifies source.Objects()
    ensures source.Valid()
    ensures (r, source.Tape()) == ReadUnit(old(source.Tape()))
  {
    match source
    case FromCharSequence(reader) => r := reader.ReadCodeUnitOrEof();
    case FromInputStream(reader) => r := reader.ReadCodeUnitOrEof();
  }

  class DefaultCodePointReader {
    const source: CodeUnitSource
    /** The stream nodes created over this reader, in order; `ChainValid` relates
        their cached heads and tails to what the reader has decoded so far. */
    ghost var nodes: seq<DefaultCodePointStream>

    constructor (source: CodeUnitSource)
      ensures this.source == source && nodes == []
    {
      this.source := source;
      nodes := [];
    }

    /** Reads one code point: EOF, a code point, or "Corrupt stream." for a lone
        or reversed surrogate or a corrupt unit source. */
    method ReadCodePointOrEof() returns (r: CpRead)
      requires source.Valid()
      modifies source.Objects()
      ensures source.Valid()
      ensures (r, source.Tape()) == DecodeNext(old(source.Tape()))
    {
      var first := ReadCodeUnitOrEof(source);
      match first {
        case UnitEof => return CpEof;
        case UnitCorrupt => return CpCorrupt;
        case Unit(u) =>
          if !IsSurrogate(u) {
            return CodePoint(u);
          }
          if !IsHighSurrogate(u) {
            return CpCorrupt;
          }
          var second := ReadCodeUnitOrEof(source);
          match second {
            case Unit(v) =>
              if !IsLowSurrogate(v) {
                return CpCorrupt;
              }
              return CodePoint(ToCodePoint(u, v));
            case _ => return CpCorrupt;
          }
      }
    }

    /** Node `k` of the chain is consistent: a cached head is the first code point
        it stands for; every node but the last has read a code point and its tail
        is the next node, standing for the rest; the reader's remaining input is
        what the last node, or the node after it, stands for. */
    ghost predicate NodeOk(k: nat)
      requires k < |nodes|
      reads this, nodes, source.Objects()
    {
      var n := nodes[k];
      n.reader == this && n.index == k &&
      (n.headCodePoint.Read? ==> n.headCodePoint.value == First(n.rest) && !n.headCodePoint.value.CpCorrupt?) &&
      (k + 1 < |nodes| ==>
         n.headCodePoint.Read? && n.headCodePoint.value.CodePoint? &&
         n.tailCodePoints == nodes[k + 1] && nodes[k + 1].rest == Rest(n.rest)) &&
      (k + 1 == |nodes| ==>
         source.Valid() &&
         (n.headCodePoint.Unread? ==> n.tailCodePoints == null && DecodeAll(source.Tape()) == n.rest) &&
         (n.headCodePoint.Read? ==>
            DecodeAll(source.Tape()) == Rest(n.rest) &&
            (n.tailCodePoints == null || (n.headCodePoint.value.CpEof? && n.tailCodePoints == n))))
    }

    ghost predicate ChainValid()
      reads this, nodes, source.Objects()
    {
      source.Valid() && forall k | 0 <= k < |nodes| :: NodeOk(k)
    }
  }

  /** A cached head: UNREAD, or what the reader returned (EOF or a code point). */
  datatype HeadCodePoint = Unread | Read(value: CpRead)

  class DefaultCodePointStream {
    const reader: DefaultCodePointReader
    var headCodePoint: HeadCodePoint
    var tailCodePoints: DefaultCodePointStream?
    /** This node's position in `reader.nodes`. */
    ghost const index: nat
    /** The code points this node stands for. */
    ghost const rest: CpTape

    ghost predicate Valid()
      reads this, reader, reader.nodes, reader.source.Objects()
    {
      reader.ChainValid() && index < |reader.nodes| && reader.nodes[index] == this
    }

    /** A new node with an unread head over `reader`, registered as the last node
        of its chain. */
    constructor (reader: DefaultCodePointReader, ghost rest: CpTape)
      modifies reader`nodes
      ensures this.reader == reader && this.rest == rest && index == |old(reader.nodes)|
      ensures headCodePoint == Unread && tailCodePoints == null
      ensures reader.nodes == old(reader.nodes) + [this]
    {
      this.reader := reader;
      this.rest := rest;
      index := |reader.nodes|;
      headCodePoint := Unread;
      tailCodePoints := null;
      new;
      reader.nodes := reader.nodes + [this];
    }

    /** Reads the head from the shared reader the first time, and returns the
        cached head afterwards; a corrupt input leaves the head UNREAD. */
    method GetHeadCodePoint() returns (r: CpRead)
      requires Valid()
      modifies this`headCodePoint, reader.source.Objects()
      ensures r == First(rest)
      ensures !r.CpCorrupt? ==> Valid() && headCodePoint == Read(r)
      ensures old(headCodePoint).Read? ==> headCodePoint == old(headCodePoint) && unchanged(reader.source.Objects())
      ensures tailCodePoints == old(tailCodePoints)
    {
      assert reader.NodeOk(index);
      if headCodePoint.Unread? {
        r := ReadHead();
      } else {
        r := headCodePoint.value;
      }
    }

    /** The first read of a node: the reader decodes one code point, which
        becomes the cached head unless the input is corrupt. */
    method ReadHead() returns (r: CpRead)
      requires Valid() && headCodePoint.Unread?
      modifies this`headCodePoint, reader.source.Objects()
      ensures r == First(rest)
      ensures !r.CpCorrupt? ==> Valid() && headCodePoint == Read(r)
    {
      assert reader.NodeOk(index);
      ghost var tape := reader.source.Tape();
      DecodeNextIsFirst(tape);
      r := reader.ReadCodePointOrEof();
      if r.CpCorrupt? {
        return;
      }
      headCodePoint := Read(r);
      forall k | 0 <= k < |reader.nodes| && k != index
        ensures reader.NodeOk(k)
      {
        assert old(reader.NodeOk(k));
      }
      assert reader.NodeOk(index);
    }

    method IsEmpty() returns (r: Result<bool>)
      requires Valid()
      modifies this`headCodePoint, reader.source.Objects()
      ensures r == IsEmptyOf(rest)
      ensures r.Ok? ==> Valid() && headCodePoint == Read(First(rest))
      ensures tailCodePoints == old(tailCodePoints)
    {
      var h := GetHeadCodePoint();
      if h.CpCorrupt? {
        return Err(CORRUPT_STREAM);
      }
      return Ok(h == CpEof);
    }

    method Head() returns (r: Result<int>)
      requires Valid()
      modifies this`headCodePoint, reader.source.Objects()
      ensures r == HeadOf(rest)
      ensures !First(rest).CpCorrupt? ==> Valid()
      ensures tailCodePoints == old(tailCodePoints)
    {
      var empty := IsEmpty();
      if empty.Err? {
        return Err(empty.message);
      }
      if empty.value {
        return Err(EMPTY_STREAM);
      }
      return Ok(headCodePoint.value.value);
    }

    /** The memoised tail: the node itself at end of input, otherwise a node over
        the same reader standing for the rest; a second call returns the node the
        first call returned. */
    method Tail() returns (r: Result<DefaultCodePointStream>)
      requires Valid()
      modifies this, reader, reader.source.Objects()
      ensures r.Ok? <==> TailOf(rest).Ok?
      ensures r.Ok? ==> Valid() && r.value.Valid() && r.value.reader == reader && r.value.rest == TailOf(rest).value
      ensures r.Ok? && rest.cps == [] ==> r.value == this
      ensures old(tailCodePoints) != null ==> r == Ok(old(tailCodePoints)) && unchanged(this, reader, reader.source.Objects())
      ensures r.Ok? ==> tailCodePoints == r.value
      ensures old(reader.nodes) <= reader.nodes
    {
      if tailCodePoints != null {
        TailIsValid(this);
        return Ok(tailCodePoints);
      }
      var empty := IsEmpty();
      if empty.Err? {
        return Err(empty.message);
      }
      if empty.value {
        SetSelfTail();
        return Ok(this);
      }
      var next := AppendTail();
      return Ok(next);
    }

    /** At end of input the tail is the node itself. */
    method SetSelfTail()
      requires Valid() && headCodePoint == Read(CpEof) && tailCodePoints == null
      modifies this`tailCodePoints
      ensures Valid() && tailCodePoints == this
    {
      assert reader.NodeOk(index);
      tailCodePoints := this;
      forall k | 0 <= k < |reader.nodes| && k != index
        ensures reader.NodeOk(k)
      {
        assert old(reader.NodeOk(k));
      }
      assert reader.NodeOk(index);
    }

    /** After a code point, the tail is a new node over the same reader. */
    method AppendTail() returns (next: DefaultCodePointStream)
      requires Valid() && headCodePoint.Read? && headCodePoint.value.CodePoint? && tailCodePoints == null
      modifies this`tailCodePoints, reader`nodes
      ensures Valid() && next.Valid() && fresh(next) && tailCodePoints == next
      ensures next.reader == reader && next.rest == Rest(rest)
      ensures old(reader.nodes) <= reader.nodes
    {
      assert reader.NodeOk(index);
      next := new DefaultCodePointStream(reader, Rest(rest));
      tailCodePoints := next;
      forall k | 0 <= k < index
        ensures reader.NodeOk(k)
      {
        assert old(reader.NodeOk(k));
      }
      assert reader.NodeOk(index);
      assert reader.NodeOk(index + 1);
    }
  }

  lemma TailIsValid(n: DefaultCodePointStream)
    requires n.Valid() && n.tailCodePoints != null
    ensures TailOf(n.rest).Ok?
    ensures n.tailCodePoints.Valid() && n.tailCodePoints.reader == n.reader
    ensures n.tailCodePoints.rest == TailOf(n.rest).value
    ensures n.rest.cps == [] ==> n.tailCodePoints == n
  {
    var rd := n.reader;
    assert rd.NodeOk(n.index);
    if n.index + 1 < |rd.nodes| {
      assert rd.NodeOk(n.index + 1);
    }
  }

  /** A stream over the chars of `text`, read from index 0. */
  method NewCodePointStreamFromChars(text: seq<CodeUnit>) returns (s: DefaultCodePointStream)
    ensures fresh(s) && s.Valid() && s.rest == DecodeAll(UnitTape(text, false))
  {
    var units := new CodeUnitReaderFromCharSequence(text, 0);
    var reader := new DefaultCodePointReader(FromCharSequence(units));
    assert text[0..] == text;
    s := new DefaultCodePointStream(reader, DecodeAll(reader.source.Tape()));
    assert reader.NodeOk(0);
  }

  /** A stream over a big-endian byte stream. */
  method NewCodePointStreamFromBytes(bytes: seq<Byte>) returns (s: DefaultCodePointStream)
    ensures fresh(s) && s.Valid() && s.rest == DecodeAll(BytesTape(bytes))
  {
    var units := new CodeUnitReaderFromInputStream(bytes);
    var reader := new DefaultCodePointReader(FromInputStream(units));
    assert bytes[0..] == bytes;
    s := new DefaultCodePointStream(reader, DecodeAll(reader.source.Tape()));
    assert reader.NodeOk(0);
  }
}
