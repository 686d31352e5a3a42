/** plumbum's `Document`: the XML declaration's version and encoding, the
    root element's name and namespaces, and the root's children. */
module Documents {
  import opened Wrappers
  import opened Elements

  /** An `XmlVersion`, by the text `%s` renders for it. */
  datatype XmlVersion = XmlVersion(text: string)

  /** `XML_1_0`. */
  const XML_1_0: XmlVersion := XmlVersion("1.0")

  /** A `java.nio.charset.Charset`, by its canonical `name()`. */
  datatype Charset = Charset(name: string)

  /** `Charset.forName("UTF-8")`. */
  const UTF_8: Charset := Charset("UTF-8")

  /** An `XmlNamespace`: an attribute name and the lines of its value. */
  datatype XmlNamespace = XmlNamespace(key: string, value: seq<string>)

  datatype Document = Document(
    xmlVersion: XmlVersion,
    encoding: Charset,
    name: string,
    xmlNamespaces: seq<XmlNamespace>,
    elements: seq<Element>)

  /** `ImmutableList.copyOf(iterable)`: the members in iteration order;
      a null iterable or a null member is refused. */
  function CopyOf<T>(items: Option<seq<Option<T>>>): (r: Result<seq<T>>)
    ensures r.Ok? <==> items.Some? && forall i | 0 <= i < |items.value| :: items.value[i].Some?
    ensures r.Ok? ==> (|r.value| == |items.value|
      && forall i | 0 <= i < |items.value| :: r.value[i] == items.value[i].value)
    ensures r.Err? ==> r.message == "NullPointerException"
  {
    if items.None? then Err("NullPointerException") else Collect(items.value)
  }

  function Collect<T>(items: seq<Option<T>>): (r: Result<seq<T>>)
    ensures r.Ok? <==> forall i | 0 <= i < |items| :: items[i].Some?
    ensures r.Ok? ==> |r.value| == |items| && (forall i | 0 <= i < |items| :: r.value[i] == items[i].value)
    ensures r.Err? ==> r.message == "NullPointerException"
  {
    if |items| == 0 then Ok([])
    else if items[0].None? then Err("NullPointerException")
    else
      match Collect(items[1..])
      case Err(m) => Err(m)
      case Ok(rest) => Ok([items[0].value] + rest)
  }

  /** The private constructor: the four `checkNotNull`s in order, then the
      two copies. */
  function NewDocument(
    xmlVersion: Option<XmlVersion>,
    encoding: Option<Charset>,
    name: Option<string>,
    xmlNamespaces: Option<seq<Option<XmlNamespace>>>,
    elements: Option<seq<Option<Element>>>): (r: Result<Document>)
    ensures xmlVersion.None? ==> r == Err("Missing 'xmlVersion'.")
    ensures xmlVersion.Some? && encoding.None? ==> r == Err("Missing 'encoding'.")
    ensures xmlVersion.Some? && encoding.Some? && name.None? ==> r == Err("Missing 'name'.")
    ensures xmlVersion.Some? && encoding.Some? && name.Some? && elements.None? ==> r == Err("Missing 'elements'.")
    ensures r.Ok? <==> (xmlVersion.Some? && encoding.Some? && name.Some?
      && CopyOf(xmlNamespaces).Ok? && CopyOf(elements).Ok?)
    ensures r.Ok? ==>
      && r.value.xmlVersion == xmlVersion.value && r.value.encoding == encoding.value
      && r.value.name == name.value
      && r.value.xmlNamespaces == CopyOf(xmlNamespaces).value
      && r.value.elements == CopyOf(elements).value
  {
    if xmlVersion.None? then Err("Missing 'xmlVersion'.")
    else if encoding.None? then Err("Missing 'encoding'.")
    else if name.None? then Err("Missing 'name'.")
    else if elements.None? then Err("Missing 'elements'.")
    else
      match CopyOf(xmlNamespaces)
      case Err(m) => Err(m)
      case Ok(namespaces) =>
        match CopyOf(elements)
        case Err(m) => Err(m)
        case Ok(children) =>
          Ok(Document(xmlVersion.value, encoding.value, name.value, namespaces, children))
  }

  /** `document(xmlVersion, encoding, xmlNamespaces, name, elements)`: the
      namespaces come before the name here but after it in the
      constructor. */
  function DocumentOf(
    xmlVersion: Option<XmlVersion>,
    encoding: Option<Charset>,
    xmlNamespaces: Option<seq<Option<XmlNamespace>>>,
    name: Option<string>,
    elements: Option<seq<Option<Element>>>): Result<Document>
  {
    NewDocument(xmlVersion, encoding, name, xmlNamespaces, elements)
  }

  /** `document(name, elements)`. */
  function DocumentNamed(name: Option<string>, elements: Option<seq<Option<Element>>>): Result<Document>
  {
    NewDocument(Some(XML_1_0), Some(UTF_8), name, Some([]), elements)
  }

  /** `document(name, xmlNamespaces, elements)`. */
  function DocumentNamedWith(
    name: Option<string>,
    xmlNamespaces: Option<seq<Option<XmlNamespace>>>,
    elements: Option<seq<Option<Element>>>): Result<Document>
  {
    NewDocument(Some(XML_1_0), Some(UTF_8), name, xmlNamespaces, elements)
  }

  /** `document(encoding, name, elements)`. */
  function DocumentEncoded(encoding: Option<Charset>, name: Option<string>, elements: Option<seq<Option<Element>>>): Result<Document>
  {
    NewDocument(Some(XML_1_0), encoding, name, Some([]), elements)
  }

  /** `document(encoding, name, xmlNamespaces, elements)`. */
  function DocumentEncodedWith(
    encoding: Option<Charset>,
    name: Option<string>,
    xmlNamespaces: Option<seq<Option<XmlNamespace>>>,
    elements: Option<seq<Option<Element>>>): Result<Document>
  {
    NewDocument(Some(XML_1_0), encoding, name, xmlNamespaces, elements)
  }

  /** A list with no null member. */
  function NonNull<T>(items: seq<T>): (r: seq<Option<T>>)
    ensures |r| == |items| && forall i | 0 <= i < |items| :: r[i] == Some(items[i])
  {
    if |items| == 0 then [] else [Some(items[0])] + NonNull(items[1..])
  }

  /** The short overloads default to XML 1.0, UTF-8 and no namespaces, and
      every overload puts each argument in its own field. */
  lemma Overloads(version: XmlVersion, encoding: Charset, name: string,
                  namespaces: seq<XmlNamespace>, elements: seq<Element>)
    ensures DocumentOf(Some(version), Some(encoding), Some(NonNull(namespaces)), Some(name), Some(NonNull(elements)))
      == Ok(Document(version, encoding, name, namespaces, elements))
    ensures DocumentNamed(Some(name), Some(NonNull(elements)))
      == Ok(Document(XML_1_0, UTF_8, name, [], elements))
    ensures DocumentNamedWith(Some(name), Some(NonNull(namespaces)), Some(NonNull(elements)))
      == Ok(Document(XML_1_0, UTF_8, name, namespaces, elements))
    ensures DocumentEncoded(Some(encoding), Some(name), Some(NonNull(elements)))
      == Ok(Document(XML_1_0, encoding, name, [], elements))
    ensures DocumentEncodedWith(Some(encoding), Some(name), Some(NonNull(namespaces)), Some(NonNull(elements)))
      == Ok(Document(XML_1_0, encoding, name, namespaces, elements))
  {
    CopyOfNonNull(namespaces);
    CopyOfNonNull(elements);
    CopyOfNonNull<XmlNamespace>([]);
  }

  /** Copying a list with no null member gives its members back. */
  lemma CopyOfNonNull<T>(items: seq<T>)
    ensures CopyOf(Some(NonNull(items))) == Ok(items)
  {
    var r := CopyOf(Some(NonNull(items)));
    assert r.Ok?;
    assert r.value == items;
  }
}
