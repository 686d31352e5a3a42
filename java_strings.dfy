/** The `String` operations the builders and code-point sources use:
    `codePointAt`, `Character.charCount` and `Character.toChars`. Unlike
    `DefaultCodePointReader`, these never fail: a surrogate that is not part of
    a pair stands for itself. */
module JavaStrings {
  import opened Utf16

  /** `s.codePointAt(i)`: a high surrogate followed by a low surrogate combine;
      any other unit is its own code point. */
  function CodePointAt(s: seq<CodeUnit>, i: nat): (cp: int)
    requires i < |s|
    ensures 0 <= cp <= 0x10FFFF
    ensures cp >= 0x1_0000 <==> i + 1 < |s| && IsHighSurrogate(s[i]) && IsLowSurrogate(s[i + 1])
    ensures cp < 0x1_0000 ==> cp == s[i]
  {
    if i + 1 < |s| && IsHighSurrogate(s[i]) && IsLowSurrogate(s[i + 1]) then ToCodePoint(s[i], s[i + 1])
    else s[i]
  }

  /** `Character.charCount(cp)`. */
  function CharCount(cp: int): (n: nat)
    ensures n == 1 || n == 2
  {
    if cp >= 0x1_0000 then 2 else 1
  }

  /** `Character.toChars(cp)` for any code point, surrogates included. */
  function ToChars(cp: int): (units: seq<CodeUnit>)
    requires 0 <= cp <= 0x10FFFF
    ensures |units| == CharCount(cp)
  {
    if cp < 0x1_0000 then [cp]
    else [(cp - 0x1_0000) / 1024 + 0xD800, (cp - 0x1_0000) % 1024 + 0xDC00]
  }

  /** The code points that a walk with `codePointAt` and `charCount` visits. */
  function CodePointsOf(s: seq<CodeUnit>): (cps: seq<int>)
    ensures |cps| <= |s|
    ensures forall k | 0 <= k < |cps| :: 0 <= cps[k] <= 0x10FFFF
    decreases |s|
  {
    if s == [] then [] else [CodePointAt(s, 0)] + CodePointsOf(s[CharCount(CodePointAt(s, 0))..])
  }

  /** The units of a sequence of code points, each as `toChars` writes it. */
  function CharsOf(cps: seq<int>): seq<CodeUnit>
    requires forall k | 0 <= k < |cps| :: 0 <= cps[k] <= 0x10FFFF
  {
    if cps == [] then [] else ToChars(cps[0]) + CharsOf(cps[1..])
  }

  /** `toChars` writes back exactly the units `codePointAt` combined. */
  lemma ToCharsOfCodePointAt(s: seq<CodeUnit>)
    requires s != []
    ensures ToChars(CodePointAt(s, 0)) == s[..CharCount(CodePointAt(s, 0))]
  {
    if |s| > 1 && IsHighSurrogate(s[0]) && IsLowSurrogate(s[1]) {
      PairIsEncoding(s[0], s[1]);
    }
  }

  /** Walking a string by code points and writing each back gives the string. */
  lemma {:induction false} CharsOfCodePointsOf(s: seq<CodeUnit>)
    ensures CharsOf(CodePointsOf(s)) == s
    decreases |s|
  {
    if s != [] {
      var n := CharCount(CodePointAt(s, 0));
      assert s == s[..n] + s[n..];
      CharsOfStep(s);
      ToCharsOfCodePointAt(s);
      CharsOfCodePointsOf(s[n..]);
    }
  }

  /** Writing one more code point appends its `toChars` units. */
  lemma {:induction false} CharsOfSnoc(cps: seq<int>, cp: int)
    requires forall k | 0 <= k < |cps| :: 0 <= cps[k] <= 0x10FFFF
    requires 0 <= cp <= 0x10FFFF
    ensures CharsOf(cps + [cp]) == CharsOf(cps) + ToChars(cp)
  {
    if cps != [] {
      assert (cps + [cp])[1..] == cps[1..] + [cp];
      CharsOfSnoc(cps[1..], cp);
    }
  }

  /** One step of the walk, written back. */
  lemma CharsOfStep(s: seq<CodeUnit>)
    requires s != []
    ensures var cp := CodePointAt(s, 0);
      CharsOf(CodePointsOf(s)) == ToChars(cp) + CharsOf(CodePointsOf(s[CharCount(cp)..]))
  {
    var cp := CodePointAt(s, 0);
    var cps := CodePointsOf(s);
    assert cps[0] == cp && cps[1..] == CodePointsOf(s[CharCount(cp)..]);
  }

  /** On the encoding of scalar values, the walk finds them again. */
  lemma {:induction false} CodePointsOfEncodeAll(cps: seq<int>)
    requires forall k | 0 <= k < |cps| :: IsScalarValue(cps[k])
    ensures CodePointsOf(EncodeAll(cps)) == cps
  {
    if cps != [] {
      var s := EncodeAll(cps);
      var e := Encode(cps[0]);
      assert s == e + EncodeAll(cps[1..]);
      if cps[0] >= 0x1_0000 {
        EncodeSupplementary(cps[0]);
      }
      assert CodePointAt(s, 0) == cps[0];
      assert s[CharCount(cps[0])..] == EncodeAll(cps[1..]);
      CodePointsOfEncodeAll(cps[1..]);
    }
  }

  /** Reading at any index: `toChars` writes back the units `codePointAt` read
      there, and they lie inside the string. */
  lemma ToCharsAt(s: seq<CodeUnit>, i: nat)
    requires i < |s|
    ensures i + CharCount(CodePointAt(s, i)) <= |s|
    ensures ToChars(CodePointAt(s, i)) == s[i..i + CharCount(CodePointAt(s, i))]
  {
    assert CodePointAt(s[i..], 0) == CodePointAt(s, i);
    ToCharsOfCodePointAt(s[i..]);
  }

  /** The code points from index `i` on: the one read at `i`, then the rest. */
  lemma CodePointsOfAt(s: seq<CodeUnit>, i: nat)
    requires i < |s|
    ensures CodePointsOf(s[i..]) == [CodePointAt(s, i)] + CodePointsOf(s[i + CharCount(CodePointAt(s, i))..])
  {
    assert CodePointAt(s[i..], 0) == CodePointAt(s, i);
    assert s[i..][CharCount(CodePointAt(s, i))..] == s[i + CharCount(CodePointAt(s, i))..];
  }
}
