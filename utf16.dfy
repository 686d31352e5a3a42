/** UTF-16 as the engine uses it (section 2 of RFC 2781): code units, surrogate
    pairs, `Character.toCodePoint` and `Character.toChars`, and the decoding step
    that `DefaultCodePointReader.readCodePointOrEof` performs on a run of code
    units. */
module Utf16 {

  /** A Java `char`. */
  type CodeUnit = u: int | 0 <= u < 0x1_0000

  predicate IsHighSurrogate(u: int) { 0xD800 <= u <= 0xDBFF }

  predicate IsLowSurrogate(u: int) { 0xDC00 <= u <= 0xDFFF }

  predicate IsSurrogate(u: int) { 0xD800 <= u <= 0xDFFF }

  /** A Unicode scalar value: a code point that is not a surrogate. */
  predicate IsScalarValue(cp: int) { 0 <= cp <= 0x10FFFF && !IsSurrogate(cp) }

  /** `Character.toCodePoint(high, low)`: the formula is applied to any two chars
      without checking them; for a genuine pair it is the decoding of section 2.2
      of RFC 2781. */
  function ToCodePoint(high: CodeUnit, low: CodeUnit): (cp: int)
    ensures IsHighSurrogate(high) && IsLowSurrogate(low) ==>
              cp == 0x10000 + (high - 0xD800) * 1024 + (low - 0xDC00) && 0x10000 <= cp <= 0x10FFFF
  {
    high * 1024 + low + (0x10000 - 0xD800 * 1024 - 0xDC00)
  }

  /** `Character.toChars(cp)`: one unit below 0x10000, otherwise a surrogate pair. */
  function Encode(cp: int): (units: seq<CodeUnit>)
    requires IsScalarValue(cp)
    ensures |units| == if cp < 0x10000 then 1 else 2
  {
    if cp < 0x10000 then [cp]
    else [(cp - 0x10000) / 1024 + 0xD800, (cp - 0x10000) % 1024 + 0xDC00]
  }

  /** The UTF-16 encoding of a sequence of scalar values. */
  function EncodeAll(cps: seq<int>): seq<CodeUnit>
    requires forall i :: 0 <= i < |cps| ==> IsScalarValue(cps[i])
  {
    if cps == [] then [] else Encode(cps[0]) + EncodeAll(cps[1..])
  }

  /** An encoded supplementary code point is a high surrogate followed by a low
      surrogate that `ToCodePoint` combines back into it. */
  lemma EncodeSupplementary(cp: int)
    requires IsScalarValue(cp) && cp >= 0x10000
    ensures IsHighSurrogate(Encode(cp)[0]) && IsLowSurrogate(Encode(cp)[1])
    ensures ToCodePoint(Encode(cp)[0], Encode(cp)[1]) == cp
  {
    var q, r := (cp - 0x10000) / 1024, (cp - 0x10000) % 1024;
    assert cp - 0x10000 == q * 1024 + r;
    assert q < 1024;
  }

  /** Conversely, every surrogate pair is the encoding of the code point it
      combines into. */
  lemma PairIsEncoding(high: CodeUnit, low: CodeUnit)
    requires IsHighSurrogate(high) && IsLowSurrogate(low)
    ensures IsScalarValue(ToCodePoint(high, low))
    ensures Encode(ToCodePoint(high, low)) == [high, low]
  {
    var cp := ToCodePoint(high, low);
    var d := cp - 0x10000;
    assert d == (high - 0xD800) * 1024 + (low - 0xDC00);
    assert d / 1024 == high - 0xD800 && d % 1024 == low - 0xDC00;
  }

  /** What one read of a code-unit source yields: a unit, end of input, or the
      "Corrupt stream." failure of a byte source that ends in the middle of a unit. */
  datatype UnitRead = Unit(unit: CodeUnit) | UnitEof | UnitCorrupt

  /** The code units a source will still deliver, and whether it then fails
      instead of reporting end of input. */
  datatype UnitTape = UnitTape(units: seq<CodeUnit>, corrupt: bool)

  /** One read of a source whose future is `t`, and the future after it. */
  function ReadUnit(t: UnitTape): (UnitRead, UnitTape)
  {
    if |t.units| > 0 then (Unit(t.units[0]), UnitTape(t.units[1..], t.corrupt))
    else if t.corrupt then (UnitCorrupt, UnitTape([], false))
    else (UnitEof, t)
  }

  /** What one read of a code-point source yields. */
  datatype CpRead = CodePoint(value: int) | CpEof | CpCorrupt

  /** One call of `readCodePointOrEof` on a unit source whose future is `t`:
      the code point (or end of input, or "Corrupt stream.") and the future of the
      unit source after the units that call consumed. */
  function DecodeNext(t: UnitTape): (r: (CpRead, UnitTape))
    ensures r.0.CodePoint? ==> IsScalarValue(r.0.value)
    ensures r.0.CpEof? <==> t.units == [] && !t.corrupt
    ensures |r.1.units| <= |t.units|
    ensures r.0.CodePoint? ==> |r.1.units| < |t.units| && r.1.corrupt == t.corrupt
  {
    var (first, t1) := ReadUnit(t);
    match first
    case UnitEof => (CpEof, t1)
    case UnitCorrupt => (CpCorrupt, t1)
    case Unit(u) =>
      if !IsSurrogate(u) then (CodePoint(u), t1)
      else if !IsHighSurrogate(u) then (CpCorrupt, t1)
      else
        var (second, t2) := ReadUnit(t1);
        match second
        case Unit(v) =>
          if IsLowSurrogate(v) then (CodePoint(ToCodePoint(u, v)), t2) else (CpCorrupt, t2)
        case _ => (CpCorrupt, t2)
  }

  /** A decoded code point consumed exactly its own encoding. */
  lemma DecodeNextConsumesEncoding(t: UnitTape)
    requires DecodeNext(t).0.CodePoint?
    ensures t.units == Encode(DecodeNext(t).0.value) + DecodeNext(t).1.units
  {
    var u := t.units[0];
    if IsSurrogate(u) {
      PairIsEncoding(u, t.units[1]);
      assert t.units == [u, t.units[1]] + t.units[2..];
    } else {
      assert t.units == [u] + t.units[1..];
    }
  }

  /** Decoding the encoding of a scalar value gives it back and consumes exactly
      its units. */
  lemma DecodeNextOfEncoding(cp: int, t: UnitTape)
    requires IsScalarValue(cp)
    ensures DecodeNext(UnitTape(Encode(cp) + t.units, t.corrupt)) == (CodePoint(cp), t)
  {
    var s := UnitTape(Encode(cp) + t.units, t.corrupt);
    if cp < 0x10000 {
      assert s.units[1..] == t.units;
    } else {
      EncodeSupplementary(cp);
      assert s.units[1..][1..] == t.units;
    }
  }

  /** The code points a source will still deliver, then end of input (`corrupt`
      false) or a "Corrupt stream." failure (`corrupt` true). This is the value a
      code-point stream stands for. */
  datatype CpTape = CpTape(cps: seq<int>, corrupt: bool)

  /** Everything a code-unit source decodes to, read to the end. */
  function DecodeAll(t: UnitTape): (r: CpTape)
    ensures forall i :: 0 <= i < |r.cps| ==> IsScalarValue(r.cps[i])
    ensures |r.cps| <= |t.units|
    decreases |t.units|
  {
    var (read, rest) := DecodeNext(t);
    match read
    case CpEof => CpTape([], false)
    case CpCorrupt => CpTape([], true)
    case CodePoint(cp) =>
      var tail := DecodeAll(rest);
      CpTape([cp] + tail.cps, tail.corrupt)
  }

  /** Decoding the encoding of scalar values gives them back. */
  lemma {:induction false} DecodeAllOfEncodeAll(cps: seq<int>)
    requires forall i :: 0 <= i < |cps| ==> IsScalarValue(cps[i])
    ensures DecodeAll(UnitTape(EncodeAll(cps), false)) == CpTape(cps, false)
  {
    if cps != [] {
      DecodeNextOfEncoding(cps[0], UnitTape(EncodeAll(cps[1..]), false));
      DecodeAllOfEncodeAll(cps[1..]);
      assert [cps[0]] + cps[1..] == cps;
    }
  }

  /** Conversely, a unit sequence that decodes without error is the encoding of
      what it decodes to. */
  lemma {:induction false} EncodeAllOfDecodeAll(t: UnitTape)
    requires !DecodeAll(t).corrupt
    ensures !t.corrupt && t.units == EncodeAll(DecodeAll(t).cps)
    decreases |t.units|
  {
    var (read, rest) := DecodeNext(t);
    if read.CodePoint? {
      DecodeNextConsumesEncoding(t);
      EncodeAllOfDecodeAll(rest);
      var cps := DecodeAll(t).cps;
      assert cps[1..] == DecodeAll(rest).cps;
    }
  }
}
