/** plumbum's `Indentation`: an immutable pair of a `step` (the text one
    level of nesting adds) and the `text` accumulated so far. */
module Indentations {
  import opened Wrappers

  datatype Indentation = Indentation(step: string, text: string)

  /** `step` repeated `k` times. */
  function Repeat(step: string, k: nat): (r: string)
  {
    if k == 0 then [] else step + Repeat(step, k - 1)
  }

  /** The public constructor: no indentation yet, and a null `step` is
      refused. */
  function NewIndentation(step: Option<string>): (r: Result<Indentation>)
    ensures r.Ok? <==> step.Some?
    ensures r.Ok? ==> r.value.step == step.value && r.value.text == []
    ensures r.Err? ==> r.message == "Missing 'step'."
  {
    match step
    case None => Err("Missing 'step'.")
    case Some(s) => Ok(Indentation(s, ""))
  }

  /** `TABS`, `SPACES_2`, `SPACES_4` and `SPACES_8`. */
  const TABS: Indentation := Indentation("\t", "")
  const SPACES_2: Indentation := Indentation("  ", "")
  const SPACES_4: Indentation := Indentation("    ", "")
  const SPACES_8: Indentation := Indentation("        ", "")

  /** `indent()`: a new value one step deeper; the receiver is a value and is
      left as it was. */
  function Indent(i: Indentation): Indentation
  {
    Indentation(i.step, i.text + i.step)
  }

  /** `indent()` applied `k` times. */
  function IndentTimes(i: Indentation, k: nat): Indentation
  {
    if k == 0 then i else Indent(IndentTimes(i, k - 1))
  }

  /** `toString()`: the accumulated text. */
  function ToString(i: Indentation): string
  {
    i.text
  }

  lemma {:induction false} RepeatSnoc(step: string, k: nat)
    ensures Repeat(step, k) + step == step + Repeat(step, k)
  {
    if k > 0 {
      RepeatSnoc(step, k - 1);
      calc {
        Repeat(step, k) + step;
        (step + Repeat(step, k - 1)) + step;
        step + (Repeat(step, k - 1) + step);
        step + (step + Repeat(step, k - 1));
        step + Repeat(step, k);
      }
    }
  }

  /** After `k` indents of a fresh indentation, its text is the step
      repeated `k` times. */
  lemma {:induction false} IndentTimesText(step: string, k: nat)
    ensures IndentTimes(Indentation(step, ""), k) == Indentation(step, Repeat(step, k))
    ensures ToString(IndentTimes(Indentation(step, ""), k)) == Repeat(step, k)
  {
    if k > 0 {
      IndentTimesText(step, k - 1);
      RepeatSnoc(step, k - 1);
    }
  }

  /** `equals(Object)`: the same step and text; `null` (`None`) is never
      equal. */
  function Equals(i: Indentation, other: Option<Indentation>): (r: bool)
    ensures r <==> other.Some? && other.value.step == i.step && other.value.text == i.text
  {
    other.Some? && i.step == other.value.step && i.text == other.value.text
  }

  /** Java's `int` arithmetic: the value reduced into [-2^31, 2^31). */
  function Wrap(x: int): (r: int)
    ensures -0x8000_0000 <= r < 0x8000_0000
    ensures (r - x) % 0x1_0000_0000 == 0
  {
    var m := x % 0x1_0000_0000;
    if m < 0x8000_0000 then m else m - 0x1_0000_0000
  }

  /** `String.hashCode()`: `h = 31 * h + c` over the characters, in `int`
      arithmetic. */
  function StringHash(s: string): (h: int)
    ensures -0x8000_0000 <= h < 0x8000_0000
  {
    if |s| == 0 then 0 else Wrap(31 * StringHash(s[..|s| - 1]) + s[|s| - 1] as int)
  }

  /** `hashCode()`: `31 * (31 * 1 + step.hashCode()) + text.hashCode()`. */
  function HashCode(i: Indentation): (h: int)
    ensures -0x8000_0000 <= h < 0x8000_0000
  {
    Wrap(31 * Wrap(31 * 1 + StringHash(i.step)) + StringHash(i.text))
  }

  /** Equal indentations have equal hashes, and equality is exactly equality
      of the pair. */
  lemma EqualsConsistent(i: Indentation, j: Indentation)
    ensures Equals(i, Some(j)) <==> i == j
    ensures Equals(i, Some(j)) ==> HashCode(i) == HashCode(j)
    ensures Equals(i, Some(j)) <==> Equals(j, Some(i))
  {
  }
}
