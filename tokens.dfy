/** `DefaultToken`: a pattern token, its type and its text. Texts are kept as
    code points (the Java `String` holds their UTF-16 encoding). */
module Tokens {
  import opened Wrappers

  /** The token types the tokenizer produces (`TokenType` is not part of this
      model; these are the constants it is used with). */
  datatype TokenType =
    | CODE_POINT | UNICODE_CODE_POINT | OPTIONAL | ZERO_OR_MORE | ONE_OR_MORE
    | OPEN_PARENTHESIS | CLOSE_PARENTHESIS

  /** The type and text are never null: the types here have no null. */
  datatype Token = Token(kind: TokenType, text: seq<int>)

  /** The enum constant's name, as `%s` formats it. */
  function TypeName(t: TokenType): string
  {
    match t
    case CODE_POINT => "CODE_POINT"
    case UNICODE_CODE_POINT => "UNICODE_CODE_POINT"
    case OPTIONAL => "OPTIONAL"
    case ZERO_OR_MORE => "ZERO_OR_MORE"
    case ONE_OR_MORE => "ONE_OR_MORE"
    case OPEN_PARENTHESIS => "OPEN_PARENTHESIS"
    case CLOSE_PARENTHESIS => "CLOSE_PARENTHESIS"
  }

  /** The type whose name is `name`, if any. */
  function TypeNamed(name: seq<int>): (r: Option<TokenType>)
    ensures r.Some? ==> Codes(TypeName(r.value)) == name
  {
    if name == Codes("CODE_POINT") then Some(CODE_POINT)
    else if name == Codes("UNICODE_CODE_POINT") then Some(UNICODE_CODE_POINT)
    else if name == Codes("OPTIONAL") then Some(OPTIONAL)
    else if name == Codes("ZERO_OR_MORE") then Some(ZERO_OR_MORE)
    else if name == Codes("ONE_OR_MORE") then Some(ONE_OR_MORE)
    else if name == Codes("OPEN_PARENTHESIS") then Some(OPEN_PARENTHESIS)
    else if name == Codes("CLOSE_PARENTHESIS") then Some(CLOSE_PARENTHESIS)
    else None
  }

  /** The code points of a literal string. */
  function Codes(s: string): (r: seq<int>)
    ensures |r| == |s| && forall i :: 0 <= i < |s| ==> r[i] == s[i] as int
  {
    seq(|s|, i requires 0 <= i < |s| => s[i] as int)
  }

  const PREFIX := Codes("[Token type=")
  const MIDDLE := Codes(" text='")
  const SUFFIX := Codes("']")

  /** `toString()`: `[Token type=<type> text='<text>']`. */
  function ToString(t: Token): (r: seq<int>)
    ensures |r| == |PREFIX| + |TypeName(t.kind)| + |MIDDLE| + |t.text| + |SUFFIX|
    ensures r[..|PREFIX|] == PREFIX && r[|r| - |SUFFIX|..] == SUFFIX
  {
    PREFIX + Codes(TypeName(t.kind)) + MIDDLE + t.text + SUFFIX
  }

  /** The position of the first space in `s`, or `|s|`. */
  function FirstSpace(s: seq<int>): (i: nat)
    ensures i <= |s| && (i < |s| ==> s[i] == ' ' as int)
    ensures forall j :: 0 <= j < i ==> s[j] != ' ' as int
  {
    if s == [] || s[0] == ' ' as int then 0 else 1 + FirstSpace(s[1..])
  }

  /** Reads a rendering back: the type name runs up to the first space, and the
      text sits between `text='` and the closing `']`. */
  function Parse(r: seq<int>): Option<Token>
  {
    if |r| < |PREFIX| + |MIDDLE| + |SUFFIX| || r[..|PREFIX|] != PREFIX then None
    else
      var body := r[|PREFIX|..];
      var n := FirstSpace(body);
      match TypeNamed(body[..n])
      case None => None
      case Some(kind) =>
        if |PREFIX| + n + |MIDDLE| + |SUFFIX| <= |r| then
          Some(Token(kind, r[|PREFIX| + n + |MIDDLE|..|r| - |SUFFIX|]))
        else None
  }

  /** Names are told apart by their lengths alone. */
  lemma TypeNamedName(k: TokenType)
    ensures TypeNamed(Codes(TypeName(k))) == Some(k)
  {
    var n := Codes(TypeName(k));
    assert |n| == |TypeName(k)|;
  }

  lemma NoSpaceInName(k: TokenType)
    ensures ' ' !in TypeName(k)
  {
  }

  lemma FirstSpaceAfter(name: seq<int>, rest: seq<int>)
    requires forall j :: 0 <= j < |name| ==> name[j] != ' ' as int
    requires |rest| > 0 && rest[0] == ' ' as int
    ensures FirstSpace(name + rest) == |name|
  {
    var body := name + rest;
    assert body[|name|] == ' ' as int;
    assert forall j :: 0 <= j < |name| ==> body[j] == name[j];
  }

  /** The rendering determines the token: parsing it gives the token back. */
  lemma ParseToString(t: Token)
    ensures Parse(ToString(t)) == Some(t)
  {
    var name := Codes(TypeName(t.kind));
    NoSpaceInName(t.kind);
    forall j | 0 <= j < |name|
      ensures name[j] != ' ' as int
    {
      assert TypeName(t.kind)[j] in TypeName(t.kind);
    }
    TypeNamedName(t.kind);
    ParseRendering(name, t.kind, t.text);
  }

  /** A rendering built from a name without spaces that names `kind`. */
  lemma ParseRendering(name: seq<int>, kind: TokenType, text: seq<int>)
    requires forall j :: 0 <= j < |name| ==> name[j] != ' ' as int
    requires TypeNamed(name) == Some(kind)
    ensures Parse(PREFIX + name + MIDDLE + text + SUFFIX) == Some(Token(kind, text))
  {
    var tail := MIDDLE + text + SUFFIX;
    Pieces(PREFIX, name, MIDDLE, text, SUFFIX);
    assert tail[0] == MIDDLE[0] == ' ' as int;
    FirstSpaceAfter(name, tail);
  }

  /** The pieces of a five-part concatenation. */
  lemma Pieces(p: seq<int>, n: seq<int>, m: seq<int>, t: seq<int>, s: seq<int>)
    ensures var r := p + n + m + t + s;
      && r[..|p|] == p
      && r[|p|..] == n + (m + t + s)
      && (n + (m + t + s))[..|n|] == n
      && r[|p| + |n| + |m|..|r| - |s|] == t
  {
    var r := p + n + m + t + s;
    assert r == p + (n + (m + t + s));
  }
}
