/** `regex3.CodePoints`: a set of code points kept in a `BitSet`, and the
    builder that fills it. */
module Regex3CodePoints {
  import opened Wrappers
  import Utf16
  import opened JavaStrings
  import opened Regex3CodePoint

  const INDEX_OUT_OF_BOUNDS := "IndexOutOfBoundsException"
  const STRING_INDEX_OUT_OF_BOUNDS := "StringIndexOutOfBoundsException"
  const INVALID_RANGE := "Invalid range."
  const EMPTY_CODE_POINTS := "Empty CodePoints."
  const INVALID_SINGLE := "Invalid single character String."

  /** The naturals in `lo..hi-1`. */
  function Span(lo: int, hi: int): (r: set<nat>)
    ensures forall x: nat :: x in r <==> lo <= x < hi
    decreases hi - lo
  {
    if hi <= lo then {}
    else if lo < 0 then Span(0, hi)
    else {lo as nat} + Span(lo + 1, hi)
  }

  /** `java.util.BitSet`, reduced to the operations used here: the set of its
      one bits, and the bounds checks its methods make. */
  class BitSet {
    var bits: set<nat>

    constructor()
      ensures bits == {}
    {
      bits := {};
    }

    /** `set(bitIndex)`: a negative index is out of bounds. */
    method Set(bitIndex: int) returns (r: Result<()>)
      modifies this
      ensures r.Err? <==> bitIndex < 0
      ensures r.Err? ==> r.message == INDEX_OUT_OF_BOUNDS && bits == old(bits)
      ensures r.Ok? ==> bits == old(bits) + {bitIndex as nat}
    {
      if bitIndex < 0 {
        return Err(INDEX_OUT_OF_BOUNDS);
      }
      bits := bits + {bitIndex as nat};
      r := Ok(());
    }

    /** `set(fromIndex, toIndex)`: sets the half-open range `fromIndex..toIndex-1`. */
    method SetRange(fromIndex: int, toIndex: int) returns (r: Result<()>)
      modifies this
      ensures r.Err? <==> fromIndex < 0 || toIndex < 0 || fromIndex > toIndex
      ensures r.Err? ==> r.message == INDEX_OUT_OF_BOUNDS && bits == old(bits)
      ensures r.Ok? ==> bits == old(bits) + Span(fromIndex, toIndex)
    {
      if fromIndex < 0 || toIndex < 0 || fromIndex > toIndex {
        return Err(INDEX_OUT_OF_BOUNDS);
      }
      bits := bits + Span(fromIndex, toIndex);
      r := Ok(());
    }

    /** `get(bitIndex)`: a negative index is out of bounds. */
    function Get(bitIndex: int): (r: Result<bool>)
      reads this
      ensures r.Err? <==> bitIndex < 0
      ensures r.Ok? ==> (r.value <==> bitIndex in bits)
    {
      if bitIndex < 0 then Err(INDEX_OUT_OF_BOUNDS) else Ok(bitIndex as nat in bits)
    }
  }

  /** A built set of code points. It shares the builder's `BitSet`. */
  class CodePoints {
    const value: BitSet

    /** The private constructor; `Builder.Build` makes its emptiness check. */
    constructor(value: BitSet)
      requires value.bits != {}
      ensures this.value == value
    {
      this.value := value;
    }

    /** `contains(codePoint)`: membership of the value; EOF's -1, like every
        negative value, is out of the bit set's range and fails. */
    function Contains(codePoint: CodePoint): (r: Result<bool>)
      reads value
      ensures r.Err? <==> codePoint.value < 0
      ensures r.Err? ==> r.message == INDEX_OUT_OF_BOUNDS
      ensures r.Ok? ==> (r.value <==> codePoint.value in value.bits)
      ensures codePoint == EOF ==> r.Err?
    {
      value.Get(codePoint.value)
    }
  }

  /** `Builder.toCodePoint(s)`: the string must hold exactly one code point. */
  function SingleCodePoint(s: seq<Utf16.CodeUnit>): (r: Result<int>)
    ensures r.Ok? <==> |CodePointsOf(s)| == 1
    ensures r.Ok? ==> CodePointsOf(s) == [r.value]
    ensures s == [] ==> r == Err(STRING_INDEX_OUT_OF_BOUNDS)
    ensures s != [] && r.Err? ==> r.message == INVALID_SINGLE
  {
    if s == [] then Err(STRING_INDEX_OUT_OF_BOUNDS)
    else
      var codePoint := CodePointAt(s, 0);
      assert CodePointsOf(s) == [codePoint] + CodePointsOf(s[CharCount(codePoint)..]);
      if CharCount(codePoint) == |s| then Ok(codePoint) else Err(INVALID_SINGLE)
  }

  /** `CodePoints.Builder`: every `and` only adds members. The builder
      returns itself for chaining, so each method returns `this`. */
  class Builder {
    const codePoints: BitSet

    constructor()
      ensures fresh(codePoints) && codePoints.bits == {}
    {
      codePoints := new BitSet();
    }

    /** `and(char)`. */
    method AndChar(ch: Utf16.CodeUnit) returns (r: Builder)
      modifies codePoints
      ensures r == this && codePoints.bits == old(codePoints.bits) + {ch}
    {
      var _ := codePoints.Set(ch);
      return this;
    }

    /** `and(String)`: the string must be one code point. */
    method AndString(surrogate: seq<Utf16.CodeUnit>) returns (r: Result<Builder>)
      modifies codePoints
      ensures r.Ok? <==> SingleCodePoint(surrogate).Ok?
      ensures r.Ok? ==> r.value == this && codePoints.bits == old(codePoints.bits) + {SingleCodePoint(surrogate).value}
      ensures r.Err? ==> r.message == SingleCodePoint(surrogate).message && codePoints.bits == old(codePoints.bits)
    {
      var codePoint :- SingleCodePoint(surrogate);
      var _ := codePoints.Set(codePoint);
      return Ok(this);
    }

    /** `and(CodePoint)`: EOF, whose value is -1, is out of the bit set's range. */
    method AndCodePoint(codePoint: CodePoint) returns (r: Result<Builder>)
      modifies codePoints
      ensures r.Err? <==> codePoint.value < 0
      ensures r.Ok? ==> r.value == this && codePoints.bits == old(codePoints.bits) + {codePoint.value as nat}
      ensures r.Err? ==> r.message == INDEX_OUT_OF_BOUNDS && codePoints.bits == old(codePoints.bits)
    {
      var set_ :- codePoints.Set(codePoint.value);
      return Ok(this);
    }

    /** `and(char, char)`: both bounds are included, one code point per loop step. */
    method AndCharRange(lowerBound: Utf16.CodeUnit, upperBound: Utf16.CodeUnit) returns (r: Result<Builder>)
      modifies codePoints
      ensures r.Err? <==> lowerBound > upperBound
      ensures r.Err? ==> r.message == INVALID_RANGE && codePoints.bits == old(codePoints.bits)
      ensures r.Ok? ==> r.value == this && codePoints.bits == old(codePoints.bits) + Span(lowerBound, upperBound + 1)
    {
      if lowerBound > upperBound {
        return Err(INVALID_RANGE);
      }
      var codePoint: int := lowerBound;
      while codePoint <= upperBound
        invariant lowerBound <= codePoint <= upperBound + 1
        invariant codePoints.bits == old(codePoints.bits) + Span(lowerBound, codePoint)
      {
        var _ := codePoints.Set(codePoint);
        assert Span(lowerBound, codePoint + 1) == Span(lowerBound, codePoint) + {codePoint as nat};
        codePoint := codePoint + 1;
      }
      return Ok(this);
    }

    /** `and(String, String)`: the upper bound is excluded. */
    method AndStringRange(lowerBoundSurrogate: seq<Utf16.CodeUnit>, upperBoundSurrogate: seq<Utf16.CodeUnit>) returns (r: Result<Builder>)
      modifies codePoints
      ensures var lo, hi := SingleCodePoint(lowerBoundSurrogate), SingleCodePoint(upperBoundSurrogate);
        && (r.Ok? <==> lo.Ok? && hi.Ok? && lo.value <= hi.value)
        && (r.Ok? ==> r.value == this && codePoints.bits == old(codePoints.bits) + Span(lo.value, hi.value))
        && (r.Err? ==> codePoints.bits == old(codePoints.bits))
        && (r.Err? && lo.Ok? && hi.Ok? ==> r.message == INVALID_RANGE)
    {
      var lowerBoundCodePoint :- SingleCodePoint(lowerBoundSurrogate);
      var upperBoundCodePoint :- SingleCodePoint(upperBoundSurrogate);
      if lowerBoundCodePoint > upperBoundCodePoint {
        return Err(INVALID_RANGE);
      }
      var _ := codePoints.SetRange(lowerBoundCodePoint, upperBoundCodePoint);
      return Ok(this);
    }

    /** `and(CodePoint, CodePoint)`: the upper bound is excluded, and a negative
        lower bound (EOF) is out of the bit set's range. */
    method AndCodePointRange(lowerBound: CodePoint, upperBound: CodePoint) returns (r: Result<Builder>)
      modifies codePoints
      ensures r.Ok? <==> 0 <= lowerBound.value <= upperBound.value
      ensures r.Ok? ==> r.value == this && codePoints.bits == old(codePoints.bits) + Span(lowerBound.value, upperBound.value)
      ensures r.Err? ==> codePoints.bits == old(codePoints.bits)
      ensures r.Err? ==> r.message == if lowerBound.value > upperBound.value then INVALID_RANGE else INDEX_OUT_OF_BOUNDS
    {
      if lowerBound.value > upperBound.value {
        return Err(INVALID_RANGE);
      }
      var set_ :- codePoints.SetRange(lowerBound.value, upperBound.value);
      return Ok(this);
    }

    /** `build()`: an empty set is refused; otherwise the result shares this
        builder's `BitSet`, so a later `and` changes the built set too. */
    method Build() returns (r: Result<CodePoints>)
      ensures r.Err? <==> codePoints.bits == {}
      ensures r.Err? ==> r.message == EMPTY_CODE_POINTS
      ensures r.Ok? ==> fresh(r.value) && r.value.value == codePoints
    {
      if codePoints.bits == {} {
        return Err(EMPTY_CODE_POINTS);
      }
      var built := new CodePoints(codePoints);
      return Ok(built);
    }
  }
}
