/** plumbum's `Printer`: renders a `Document` as a list of lines, the XML
    declaration first, each element's children one indentation step deeper
    than the element.  The persistent `Queue<String>` the Java code appends
    to is a `seq<string>` here. */
module Printers {
  import opened Wrappers
  import opened Indentations
  import opened Elements
  import opened Documents

  /** `String.trim()`: the string without its leading and trailing
      characters at or below U+0020. */
  function Trim(s: string): string
  {
    TrimEnd(TrimStart(s))
  }

  function TrimStart(s: string): (r: string)
    ensures |r| <= |s|
    ensures r == [] <==> forall i | 0 <= i < |s| :: s[i] <= ' '
    ensures r != [] ==> r[0] > ' '
    decreases |s|
  {
    if |s| > 0 && s[0] <= ' ' then TrimStart(s[1..]) else s
  }

  function TrimEnd(s: string): (r: string)
    ensures r == [] <==> forall i | 0 <= i < |s| :: s[i] <= ' '
    decreases |s|
  {
    if |s| > 0 && s[|s| - 1] <= ' ' then TrimEnd(s[..|s| - 1]) else s
  }

  /** `line.trim().isEmpty()` holds exactly for the lines made of characters
      at or below U+0020 alone. */
  lemma TrimEmpty(s: string)
    ensures Trim(s) == [] <==> forall i | 0 <= i < |s| :: s[i] <= ' '
  {
    var t := TrimStart(s);
    if t != [] {
      assert t[0] > ' ';
    }
  }

  /** `%s<%s>`: an open tag at an indentation. */
  function OpenTag(indentation: Indentation, name: string): string
  {
    indentation.text + "<" + name + ">"
  }

  /** `%s</%s>`: a close tag at an indentation. */
  function CloseTag(indentation: Indentation, name: string): string
  {
    indentation.text + "</" + name + ">"
  }

  /** The body of a `MultiLineTerminal`: a blank line becomes `""`, any
      other is indented. */
  function TextLines(indented: Indentation, lines: seq<string>): (r: seq<string>)
    ensures |r| == |lines|
  {
    if |lines| == 0 then []
    else
      var line := lines[|lines| - 1];
      TextLines(indented, lines[..|lines| - 1]) + [if Trim(line) == [] then "" else indented.text + line]
  }

  /** The lines `toLines(lines, indentation, element)` appends. */
  function Render(indentation: Indentation, element: Element): seq<string>
    decreases element
  {
    match element
    case Terminal(name, value) =>
      [indentation.text + "<" + name + ">" + value + "</" + name + ">"]
    case MultiLineTerminal(name, lines) =>
      [OpenTag(indentation, name)] + TextLines(Indent(indentation), lines) + [CloseTag(indentation, name)]
    case SingletonNonTerminal(name, elements) =>
      [OpenTag(indentation, name)] + RenderAll(Indent(indentation), elements) + [CloseTag(indentation, name)]
    case NonSingletonNonTerminal(name, elements) =>
      [OpenTag(indentation, name)] + RenderAll(Indent(indentation), elements) + [CloseTag(indentation, name)]
  }

  /** The lines of the elements, one after the other. */
  function RenderAll(indentation: Indentation, elements: seq<Element>): seq<string>
    decreases elements
  {
    if |elements| == 0 then []
    else RenderAll(indentation, elements[..|elements| - 1]) + Render(indentation, elements[|elements| - 1])
  }

  /** `toLines(lines, indentation, element)`: `lines` followed by the
      element's lines; the input is left as a prefix of the output. */
  method AppendElement(lines: seq<string>, indentation: Indentation, element: Element) returns (lines': seq<string>)
    ensures lines' == lines + Render(indentation, element)
    decreases element, 1
  {
    match element
    case Terminal(name, value) =>
      lines' := lines + [indentation.text + "<" + name + ">" + value + "</" + name + ">"];
    case MultiLineTerminal(name, body) =>
      lines' := AppendText(lines, indentation, name, body);
    case SingletonNonTerminal(name, children) =>
      var lines_ := lines + [OpenTag(indentation, name)];
      lines_ := AppendChildren(lines_, Indent(indentation), children);
      lines' := lines_ + [CloseTag(indentation, name)];
    case NonSingletonNonTerminal(name, children) =>
      var lines_ := lines + [OpenTag(indentation, name)];
      lines_ := AppendChildren(lines_, Indent(indentation), children);
      lines' := lines_ + [CloseTag(indentation, name)];
  }

  /** The `MULTI_LINE_TERMINAL` case: the open tag, each line one step
      deeper (a blank one as `""`), and the close tag. */
  method AppendText(lines: seq<string>, indentation: Indentation, name: string, body: seq<string>)
    returns (lines': seq<string>)
    ensures lines' == lines + Render(indentation, MultiLineTerminal(name, body))
  {
    var lines_ := lines + [OpenTag(indentation, name)];
    var indented := Indent(indentation);
    var i := 0;
    while i < |body|
      invariant 0 <= i <= |body|
      invariant lines_ == lines + [OpenTag(indentation, name)] + TextLines(indented, body[..i])
    {
      assert body[..i + 1][..i] == body[..i];
      var line := body[i];
      if Trim(line) == [] {
        lines_ := lines_ + [""];
      } else {
        lines_ := lines_ + [indented.text + line];
      }
      i := i + 1;
    }
    assert body[..i] == body;
    lines' := lines_ + [CloseTag(indentation, name)];
  }

  /** The loop both non-terminal cases (and the document) run over their
      children. */
  method AppendChildren(lines: seq<string>, indented: Indentation, children: seq<Element>) returns (lines': seq<string>)
    ensures lines' == lines + RenderAll(indented, children)
    decreases children, 0
  {
    lines' := lines;
    var i := 0;
    while i < |children|
      invariant 0 <= i <= |children|
      invariant lines' == lines + RenderAll(indented, children[..i])
    {
      assert children[..i + 1][..i] == children[..i];
      lines' := AppendElement(lines', indented, children[i]);
      i := i + 1;
    }
    assert children[..i] == children;
  }

  /** Whether `prefix` starts `s`. */
  predicate StartsWith(s: string, prefix: string)
  {
    |prefix| <= |s| && s[..|prefix|] == prefix
  }

  /** Every line an element renders is empty or starts with the element's
      indentation: nothing is printed to the left of its own level. */
  lemma {:induction false} RenderIndented(indentation: Indentation, element: Element)
    ensures forall line | line in Render(indentation, element) :: line == "" || StartsWith(line, indentation.text)
    decreases element, 1
  {
    var deeper := Indent(indentation);
    assert StartsWith(deeper.text, indentation.text) by {
      assert deeper.text == indentation.text + indentation.step;
    }
    match element
    case Terminal(name, value) =>
      assert Render(indentation, element)[0]
        == indentation.text + ("<" + name + ">" + value + "</" + name + ">");
    case MultiLineTerminal(name, body) =>
      TextLinesIndented(deeper, body);
      RenderEndsIndented(indentation, name);
    case SingletonNonTerminal(name, children) =>
      RenderAllIndented(deeper, children);
      RenderEndsIndented(indentation, name);
    case NonSingletonNonTerminal(name, children) =>
      RenderAllIndented(deeper, children);
      RenderEndsIndented(indentation, name);
  }

  lemma RenderEndsIndented(indentation: Indentation, name: string)
    ensures StartsWith(OpenTag(indentation, name), indentation.text)
    ensures StartsWith(CloseTag(indentation, name), indentation.text)
  {
    assert OpenTag(indentation, name) == indentation.text + ("<" + name + ">");
    assert CloseTag(indentation, name) == indentation.text + ("</" + name + ">");
  }

  lemma {:induction false} TextLinesIndented(indented: Indentation, lines: seq<string>)
    ensures forall line | line in TextLines(indented, lines) :: line == "" || StartsWith(line, indented.text)
  {
    if |lines| > 0 {
      TextLinesIndented(indented, lines[..|lines| - 1]);
      var line := lines[|lines| - 1];
      assert StartsWith(indented.text + line, indented.text) by {
        assert (indented.text + line)[..|indented.text|] == indented.text;
      }
    }
  }

  /** The children's lines keep to the children's indentation. */
  lemma {:induction false} RenderAllIndented(indentation: Indentation, elements: seq<Element>)
    ensures forall line | line in RenderAll(indentation, elements) :: line == "" || StartsWith(line, indentation.text)
    decreases elements, 0
  {
    if |elements| > 0 {
      RenderAllIndented(indentation, elements[..|elements| - 1]);
      RenderIndented(indentation, elements[|elements| - 1]);
    }
  }

  /** A terminal prints one line; a multi-line terminal its lines and two
      tags; a non-terminal opens with its open tag and ends with its close
      tag. */
  lemma RenderShape(indentation: Indentation, element: Element)
    ensures element.Terminal? ==> |Render(indentation, element)| == 1
    ensures element.MultiLineTerminal? ==> |Render(indentation, element)| == |element.lines| + 2
    ensures !element.Terminal? ==> (
      var r := Render(indentation, element);
      && |r| >= 2
      && r[0] == OpenTag(indentation, element.name)
      && r[|r| - 1] == CloseTag(indentation, element.name))
  {
  }

  /** The text of lines printed one after the other. */
  function Concat(lines: seq<string>): string
  {
    if |lines| == 0 then "" else Concat(lines[..|lines| - 1]) + lines[|lines| - 1]
  }

  /** The lines of an attribute value with `key="` put before the first. */
  function OpenQuote(key: string, value: seq<string>): seq<string>
    requires |value| > 0
  {
    [key + "=\"" + value[0]] + value[1..]
  }

  /** The lines with `"` put after the last. */
  function CloseQuote(lines: seq<string>): seq<string>
    requires |lines| > 0
  {
    lines[..|lines| - 1] + [lines[|lines| - 1] + "\""]
  }

  /** A namespace's lines as they are evidently meant to be printed on their
      own lines, before the indentation: `key="first`, the middle lines, and
      the last line closed with `"`; a single-valued namespace gets both
      quotes on its one line. */
  function Attribute(key: string, value: seq<string>): seq<string>
    requires |value| > 0
  {
    CloseQuote(OpenQuote(key, value))
  }

  /** Line `k` of an attribute: `key="` before the first value line, `"`
      after the last. */
  lemma AttributeAt(key: string, value: seq<string>, k: nat)
    requires k < |value|
    ensures Attribute(key, value)[k]
      == (if k == 0 then key + "=\"" else "") + value[k] + (if k == |value| - 1 then "\"" else "")
  {
  }

  /** The same as the loop of `toLines(indentation, document)` writes it:
      the closing `"` is added only to a line after the first, so a
      namespace with a single value is never closed. */
  function AsWrittenAttribute(key: string, value: seq<string>): seq<string>
    requires |value| > 0
  {
    if |value| == 1 then OpenQuote(key, value) else CloseQuote(OpenQuote(key, value))
  }

  /** Line `k` of an attribute as written: `key="` before the first value
      line, and `"` after the last one only when it is not also the first. */
  lemma AsWrittenAttributeAt(key: string, value: seq<string>, k: nat)
    requires k < |value|
    ensures |AsWrittenAttribute(key, value)| == |value|
    ensures AsWrittenAttribute(key, value)[k]
      == (if k == 0 then key + "=\"" else "") + value[k] + (if 0 < k == |value| - 1 then "\"" else "")
  {
  }

  /** As written, a namespace prints as intended exactly when it has more than
      one value line; a single-valued one lacks only the closing quote. */
  lemma AsWrittenAttributeAgrees(key: string, value: seq<string>)
    requires |value| > 0
    ensures AsWrittenAttribute(key, value) == Attribute(key, value) <==> |value| > 1
    ensures |value| == 1 ==> Attribute(key, value) == [AsWrittenAttribute(key, value)[0] + "\""]
  {
    if |value| == 1 {
      assert |Attribute(key, value)[0]| == |AsWrittenAttribute(key, value)[0]| + 1;
    }
  }

  lemma {:induction false} ConcatPrepend(a: string, lines: seq<string>)
    requires |lines| > 0
    ensures Concat([a + lines[0]] + lines[1..]) == a + Concat(lines)
  {
    var n := |lines|;
    if n == 1 {
      assert ([a + lines[0]] + lines[1..])[..0] == [];
      assert lines[..0] == [];
    } else {
      ConcatPrepend(a, lines[..n - 1]);
      assert ([a + lines[0]] + lines[1..])[..n - 1] == [a + lines[..n - 1][0]] + lines[..n - 1][1..];
    }
  }

  /** The lines of an attribute spell `key="` followed by the value and a
      closing `"`: every attribute value printed is delimited. */
  lemma AttributeSpells(key: string, value: seq<string>)
    requires |value| > 0
    ensures |Attribute(key, value)| == |value|
    ensures Concat(Attribute(key, value)) == key + "=\"" + Concat(value) + "\""
  {
    var quoted := OpenQuote(key, value);
    ConcatPrepend(key + "=\"", value);
    assert CloseQuote(quoted)[..|quoted| - 1] == quoted[..|quoted| - 1];
  }

  /** As written, a namespace with the single value `u` printed on its own
      lines reads `key="u`: the attribute value is never closed. */
  lemma AsWrittenUnclosed(key: string, u: string)
    ensures Concat(AsWrittenAttribute(key, [u])) == key + "=\"" + u
    ensures Concat(AsWrittenAttribute(key, [u])) != Concat(Attribute(key, [u]))
  {
    AttributeSpells(key, [u]);
    assert Concat([u]) == u by {
      assert [u][..0] == [];
    }
    assert Concat(AsWrittenAttribute(key, [u])) == key + "=\"" + u by {
      assert AsWrittenAttribute(key, [u])[..0] == [];
    }
    assert |Concat(Attribute(key, [u]))| == |key + "=\"" + u| + 1;
  }

  /** Each line prefixed with `text`. */
  function IndentEach(text: string, lines: seq<string>): (r: seq<string>)
    ensures |r| == |lines|
    ensures forall k | 0 <= k < |lines| :: r[k] == text + lines[k]
  {
    seq(|lines|, k requires 0 <= k < |lines| => text + lines[k])
  }

  /** One namespace's lines in the multi-line open tag, as written (a
      single-valued namespace stays unclosed); `lineIt.next()` fails on a
      namespace without a value. */
  function AttributeLines(indented: Indentation, namespace: XmlNamespace): (r: Result<seq<string>>)
    ensures r.Err? <==> |namespace.value| == 0
    ensures r.Err? ==> r.message == "NoSuchElementException"
  {
    if |namespace.value| == 0 then Err("NoSuchElementException")
    else Ok(IndentEach(indented.text, AsWrittenAttribute(namespace.key, namespace.value)))
  }

  /** All namespaces' lines, in order; the first namespace without a value
      stops the printing. */
  function NamespacesLines(indented: Indentation, namespaces: seq<XmlNamespace>): Result<seq<string>>
  {
    if |namespaces| == 0 then Ok([])
    else
      var before := NamespacesLines(indented, namespaces[..|namespaces| - 1]);
      var last := AttributeLines(indented, namespaces[|namespaces| - 1]);
      if before.Err? then before
      else if last.Err? then last
      else Ok(before.value + last.value)
  }

  /** One more namespace: the list fails where its prefix fails, and
      otherwise where the last namespace fails. */
  lemma NamespacesSnoc(indented: Indentation, namespaces: seq<XmlNamespace>)
    requires |namespaces| > 0
    ensures var n := |namespaces| - 1;
      var before := NamespacesLines(indented, namespaces[..n]);
      && (NamespacesLines(indented, namespaces).Err? <==> before.Err? || |namespaces[n].value| == 0)
      && (before.Err? ==> NamespacesLines(indented, namespaces) == before)
      && (before.Ok? && |namespaces[n].value| == 0 ==> NamespacesLines(indented, namespaces) == Err("NoSuchElementException"))
      && (before.Ok? && |namespaces[n].value| > 0 ==>
            NamespacesLines(indented, namespaces) == Ok(before.value + AttributeLines(indented, namespaces[n]).value))
  {
  }

  /** The namespaces print exactly when each has a value. */
  lemma {:induction false} NamespacesFail(indented: Indentation, namespaces: seq<XmlNamespace>)
    ensures NamespacesLines(indented, namespaces).Err?
      <==> exists i | 0 <= i < |namespaces| :: |namespaces[i].value| == 0
    ensures NamespacesLines(indented, namespaces).Err? ==>
      NamespacesLines(indented, namespaces).message == "NoSuchElementException"
  {
    if |namespaces| > 0 {
      var n := |namespaces| - 1;
      var prefix := namespaces[..n];
      NamespacesFail(indented, prefix);
      NamespacesSnoc(indented, namespaces);
      EmptySnoc(namespaces);
    }
  }

  /** Some namespace lacks a value exactly when one before the last does or
      the last does. */
  lemma EmptySnoc(namespaces: seq<XmlNamespace>)
    requires |namespaces| > 0
    ensures var n := |namespaces| - 1;
      (exists i | 0 <= i < |namespaces| :: |namespaces[i].value| == 0)
        <==> (exists i | 0 <= i < n :: |namespaces[..n][i].value| == 0) || |namespaces[n].value| == 0
  {
    var n := |namespaces| - 1;
    var prefix := namespaces[..n];
    if exists i | 0 <= i < n :: |prefix[i].value| == 0 {
      var i :| 0 <= i < n && |prefix[i].value| == 0;
      assert |namespaces[i].value| == 0;
    }
    if exists i | 0 <= i < |namespaces| :: |namespaces[i].value| == 0 {
      var i :| 0 <= i < |namespaces| && |namespaces[i].value| == 0;
      if i < n {
        assert |prefix[i].value| == 0;
      }
    }
  }

  /** The namespace loop: `key="first` at the indented level, then each
      further line, the last of them closed with `"`. */
  method AppendAttribute(lines: seq<string>, indented: Indentation, namespace: XmlNamespace)
    returns (r: Result<seq<string>>)
    ensures AttributeLines(indented, namespace).Err? ==> r == AttributeLines(indented, namespace)
    ensures AttributeLines(indented, namespace).Ok? ==> r == Ok(lines + AttributeLines(indented, namespace).value)
  {
    var value := namespace.value;
    if |value| == 0 {
      return Err("NoSuchElementException");
    }
    ghost var spec := IndentEach(indented.text, AsWrittenAttribute(namespace.key, value));
    var first := value[0];
    AsWrittenAttributeAt(namespace.key, value, 0);
    var entry := indented.text + namespace.key + "=\"" + first;
    assert entry == indented.text + (namespace.key + "=\"" + first + "");
    var lines_ := lines + [entry];
    assert spec[..1] == [spec[0]];
    var j := 1;
    while j < |value|
      invariant 1 <= j <= |value|
      invariant lines_ == lines + spec[..j]
    {
      var line := value[j];
      AsWrittenAttributeAt(namespace.key, value, j);
      if j + 1 < |value| {
        entry := indented.text + line;
        assert entry == indented.text + ("" + line + "");
      } else {
        entry := indented.text + line + "\"";
        assert entry == indented.text + ("" + line + "\"");
      }
      lines_ := lines_ + [entry];
      assert spec[..j + 1] == spec[..j] + [spec[j]];
      j := j + 1;
    }
    assert spec[..j] == spec;
    r := Ok(lines_);
  }

  /** `<?xml version="%s" encoding="%s"?>`, the XML declaration (section 2.8
      of XML 1.0). */
  function Declaration(document: Document): string
  {
    "<?xml version=\"" + document.xmlVersion.text + "\" encoding=\"" + document.encoding.name + "\"?>"
  }

  /** The lines `toLines(indentation, document)` returns: the declaration,
      the root's open tag (one line without namespaces or with one
      single-valued namespace, otherwise `<name`, the namespaces' lines and
      `>`), the root's children one step deeper, and `</name>`. */
  function DocumentLines(indentation: Indentation, document: Document): Result<seq<string>>
  {
    var indented := Indent(indentation);
    var namespaces := document.xmlNamespaces;
    var body := RenderAll(indented, document.elements);
    var close := "</" + document.name + ">";
    if |namespaces| == 0 then
      Ok([Declaration(document), "<" + document.name + ">"] + body + [close])
    else if |namespaces| == 1 && |namespaces[0].value| == 1 then
      var open := "<" + document.name + " " + namespaces[0].key + "=\"" + namespaces[0].value[0] + "\">";
      Ok([Declaration(document), open] + body + [close])
    else
      match NamespacesLines(indented, namespaces)
      case Err(m) => Err(m)
      case Ok(attributes) => Ok([Declaration(document), "<" + document.name] + attributes + [">"] + body + [close])
  }

  /** The first printed namespace line is the first line of the first
      namespace. */
  lemma {:induction false} NamespacesFirst(indented: Indentation, namespaces: seq<XmlNamespace>)
    requires |namespaces| > 0 && NamespacesLines(indented, namespaces).Ok?
    ensures AttributeLines(indented, namespaces[0]).Ok?
    ensures |NamespacesLines(indented, namespaces).value| > 0
    ensures NamespacesLines(indented, namespaces).value[0] == AttributeLines(indented, namespaces[0]).value[0]
  {
    var n := |namespaces| - 1;
    var before := NamespacesLines(indented, namespaces[..n]);
    var last := AttributeLines(indented, namespaces[n]);
    assert NamespacesLines(indented, namespaces)
      == if before.Err? then before else if last.Err? then last else Ok(before.value + last.value);
    if n == 0 {
      assert namespaces[..n] == [];
    } else {
      NamespacesFirst(indented, namespaces[..n]);
      assert namespaces[..n][0] == namespaces[0];
    }
  }

  /** As written, a document with several namespaces whose first has a
      single value prints that namespace's line as `key="u`, left open. */
  lemma DocumentUnclosed(indentation: Indentation, document: Document)
    requires |document.xmlNamespaces| > 1 && |document.xmlNamespaces[0].value| == 1
    requires DocumentLines(indentation, document).Ok?
    ensures |DocumentLines(indentation, document).value| > 2
    ensures DocumentLines(indentation, document).value[2]
      == Indent(indentation).text + document.xmlNamespaces[0].key + "=\"" + document.xmlNamespaces[0].value[0]
  {
    var indented := Indent(indentation);
    var namespace := document.xmlNamespaces[0];
    NamespacesFirst(indented, document.xmlNamespaces);
    AsWrittenAttributeAt(namespace.key, namespace.value, 0);
  }

  /** `toLines(indentation, document)`. */
  method DocumentLinesOf(indentation: Indentation, document: Document) returns (r: Result<seq<string>>)
    ensures r == DocumentLines(indentation, document)
  {
    var indented := Indent(indentation);
    var lines := [Declaration(document)];
    var namespaces := document.xmlNamespaces;
    if |namespaces| == 0 {
      lines := lines + ["<" + document.name + ">"];
      assert lines == [Declaration(document), "<" + document.name + ">"];
    } else if |namespaces| == 1 && |namespaces[0].value| == 1 {
      var namespace := namespaces[0];
      lines := lines + ["<" + document.name + " " + namespace.key + "=\"" + namespace.value[0] + "\">"];
      assert lines == [Declaration(document), "<" + document.name + " " + namespace.key + "=\"" + namespace.value[0] + "\">"];
    } else {
      var attributes := AppendNamespaces(lines + ["<" + document.name], indented, namespaces);
      if attributes.Err? {
        return Err(attributes.message);
      }
      assert lines + ["<" + document.name] == [Declaration(document), "<" + document.name];
      lines := attributes.value + [">"];
    }
    lines := AppendChildren(lines, indented, document.elements);
    r := Ok(lines + ["</" + document.name + ">"]);
  }

  /** The loop over the namespaces of a multi-line open tag. */
  method AppendNamespaces(lines: seq<string>, indented: Indentation, namespaces: seq<XmlNamespace>)
    returns (r: Result<seq<string>>)
    ensures NamespacesLines(indented, namespaces).Err? ==> r == NamespacesLines(indented, namespaces)
    ensures NamespacesLines(indented, namespaces).Ok? ==> r == Ok(lines + NamespacesLines(indented, namespaces).value)
  {
    var lines_ := lines;
    ghost var done: seq<string> := [];
    assert namespaces[..0] == [];
    var i := 0;
    while i < |namespaces|
      invariant 0 <= i <= |namespaces|
      invariant NamespacesLines(indented, namespaces[..i]) == Ok(done)
      invariant lines_ == lines + done
    {
      NamespacesGrow(indented, namespaces, i);
      var next := AppendAttribute(lines_, indented, namespaces[i]);
      if next.Err? {
        return next;
      }
      ghost var added := AttributeLines(indented, namespaces[i]).value;
      LinesAssoc(lines, done, added);
      done := done + added;
      lines_ := next.value;
      i := i + 1;
    }
    assert namespaces[..i] == namespaces;
    r := Ok(lines_);
  }

  lemma LinesAssoc(a: seq<string>, b: seq<string>, c: seq<string>)
    ensures a + b + c == a + (b + c)
  {
  }

  /** One pass of the namespace loop: a namespace without a value fails the
      whole list, and one with a value adds its lines to the prefix's. */
  lemma NamespacesGrow(indented: Indentation, namespaces: seq<XmlNamespace>, i: nat)
    requires i < |namespaces| && NamespacesLines(indented, namespaces[..i]).Ok?
    ensures AttributeLines(indented, namespaces[i]).Err? ==>
      NamespacesLines(indented, namespaces) == AttributeLines(indented, namespaces[i])
    ensures AttributeLines(indented, namespaces[i]).Ok? ==>
      NamespacesLines(indented, namespaces[..i + 1])
        == Ok(NamespacesLines(indented, namespaces[..i]).value + AttributeLines(indented, namespaces[i]).value)
  {
    assert namespaces[..i + 1][..i] == namespaces[..i];
    NamespacesSnoc(indented, namespaces[..i + 1]);
    if |namespaces[i].value| == 0 {
      NamespacesErr(indented, namespaces, i + 1);
    }
  }

  /** A failure among the first `n` namespaces is a failure of all. */
  lemma NamespacesErr(indented: Indentation, namespaces: seq<XmlNamespace>, n: nat)
    requires n <= |namespaces| && NamespacesLines(indented, namespaces[..n]).Err?
    ensures NamespacesLines(indented, namespaces) == NamespacesLines(indented, namespaces[..n])
  {
    NamespacesFail(indented, namespaces[..n]);
    NamespacesFail(indented, namespaces);
    var i :| 0 <= i < n && |namespaces[..n][i].value| == 0;
    assert |namespaces[i].value| == 0;
  }

  /** A document prints unless it needs the multi-line open tag and one of
      its namespaces has no value; printed, it starts with the declaration
      and ends with the root's close tag, and its children's lines lie at
      least one step deeper. */
  lemma DocumentShape(indentation: Indentation, document: Document)
    ensures DocumentLines(indentation, document).Err? <==>
      && !(|document.xmlNamespaces| == 0)
      && !(|document.xmlNamespaces| == 1 && |document.xmlNamespaces[0].value| == 1)
      && exists i | 0 <= i < |document.xmlNamespaces| :: |document.xmlNamespaces[i].value| == 0
    ensures DocumentLines(indentation, document).Ok? ==> (
      var lines := DocumentLines(indentation, document).value;
      && |lines| >= 3
      && lines[0] == Declaration(document)
      && lines[|lines| - 1] == "</" + document.name + ">")
    ensures forall line | line in RenderAll(Indent(indentation), document.elements) ::
      line == "" || StartsWith(line, Indent(indentation).text)
  {
    NamespacesFail(Indent(indentation), document.xmlNamespaces);
    RenderAllIndented(Indent(indentation), document.elements);
  }
}
