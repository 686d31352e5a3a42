/** `regex3.CodePoint`: a validated code point, or the end-of-input marker. */
module Regex3CodePoint {
  import opened Wrappers
  import Utf16
  import opened Decimal

  const MAX_CODE_POINT := 0x10FFFF

  /** Whether Java's character database assigns a character to a code point
      inside the code-point range. The model assumes nothing else about it. */
  const Assigned: int -> bool

  /** `Character.isDefined`: never true outside 0..0x10FFFF. */
  predicate IsDefined(value: int)
  {
    0 <= value <= MAX_CODE_POINT && Assigned(value)
  }

  /** A code point; equality and hash depend on `value` alone, which is what
      datatype equality gives. */
  datatype CodePoint = CodePoint(value: int)

  /** The end-of-input marker, value -1. */
  const EOF := CodePoint(-1)

  /** The message of `CodePoint.of(int)` for a value it refuses. */
  function InvalidValue(value: int): string
  {
    "Invalid code point: " + Show(value) + "."
  }

  /** An upper-case hexadecimal digit. */
  function HexDigit(d: nat): char
    requires d < 16
  {
    "0123456789ABCDEF"[d]
  }

  /** How a `char` reads inside a message. A non-surrogate unit is that
      character; a lone surrogate, which a Dafny string cannot hold, is
      written as its `\uXXXX` escape. */
  function UnitText(u: Utf16.CodeUnit): (s: string)
    ensures !Utf16.IsSurrogate(u) ==> s == [u as char]
    ensures Utf16.IsSurrogate(u) ==> |s| == 6 && s[..2] == "\\u"
  {
    if Utf16.IsSurrogate(u) then
      "\\u" + [HexDigit(u / 0x1000), HexDigit(u / 0x100 % 16), HexDigit(u / 0x10 % 16), HexDigit(u % 16)]
    else [u as char]
  }

  /** `CodePoint.of(int)`: only defined characters are accepted. */
  function OfInt(value: int): (r: Result<CodePoint>)
    ensures r.Ok? <==> IsDefined(value)
    ensures r.Ok? ==> r.value.value == value && r.value != EOF
    ensures r.Err? ==> r.message == InvalidValue(value)
  {
    if IsDefined(value) then Ok(CodePoint(value)) else Err(InvalidValue(value))
  }

  /** `CodePoint.of(char)`: every non-surrogate unit is accepted, defined or not. */
  function OfChar(ch: Utf16.CodeUnit): (r: Result<CodePoint>)
    ensures r.Ok? <==> !Utf16.IsSurrogate(ch)
    ensures r.Ok? ==> r.value.value == ch && r.value != EOF && Utf16.IsScalarValue(r.value.value)
    ensures r.Err? ==> r.message == "Invalid code point: " + UnitText(ch) + " is a surrogate."
  {
    if Utf16.IsSurrogate(ch) then Err("Invalid code point: " + UnitText(ch) + " is a surrogate.")
    else Ok(CodePoint(ch))
  }

  /** `CodePoint.of(high, low)`: a high surrogate and a low surrogate combine
      into the supplementary code point they encode. */
  function OfPair(high: Utf16.CodeUnit, low: Utf16.CodeUnit): (r: Result<CodePoint>)
    ensures r.Ok? <==> Utf16.IsHighSurrogate(high) && Utf16.IsLowSurrogate(low)
    ensures r.Ok? ==> r.value != EOF && 0x1_0000 <= r.value.value <= MAX_CODE_POINT
    ensures r.Ok? ==> Utf16.IsScalarValue(r.value.value) && Utf16.Encode(r.value.value) == [high, low]
    ensures !Utf16.IsHighSurrogate(high) ==>
      r == Err("Invalid code point: " + UnitText(high) + " is not a high surrogate.")
    ensures Utf16.IsHighSurrogate(high) && !Utf16.IsLowSurrogate(low) ==>
      r == Err("Invalid code point: " + UnitText(low) + " is not a low surrogate.")
  {
    if !Utf16.IsHighSurrogate(high) then Err("Invalid code point: " + UnitText(high) + " is not a high surrogate.")
    else if !Utf16.IsLowSurrogate(low) then Err("Invalid code point: " + UnitText(low) + " is not a low surrogate.")
    else
      Utf16.PairIsEncoding(high, low);
      Ok(CodePoint(Utf16.ToCodePoint(high, low)))
  }

  /** A pair of units is accepted exactly when it is the encoding of a
      supplementary code point, which it then stands for. */
  lemma OfPairOfEncoding(cp: int)
    requires Utf16.IsScalarValue(cp) && cp >= 0x1_0000
    ensures OfPair(Utf16.Encode(cp)[0], Utf16.Encode(cp)[1]) == Ok(CodePoint(cp))
  {
    Utf16.EncodeSupplementary(cp);
  }
}
