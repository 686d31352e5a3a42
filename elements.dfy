/** plumbum's `Element`: the nodes of an XML document, built through four
    factories.  The Java class hierarchy (an abstract `Element` with a `type`
    tag and four final subclasses) becomes one datatype; `TypeOf` is the
    tag. */
module Elements {
  import opened Wrappers

  /** `Element.Type`. */
  datatype ElementType =
    | TERMINAL
    | MULTI_LINE_TERMINAL
    | SINGLETON_NON_TERMINAL
    | NON_SINGLETON_NON_TERMINAL

  datatype Element =
    | Terminal(name: string, value: string)
    | MultiLineTerminal(name: string, lines: seq<string>)
    | SingletonNonTerminal(name: string, elements: seq<Element>)
    | NonSingletonNonTerminal(name: string, elements: seq<Element>)

  /** The `type` each subclass passes to `Element`'s constructor. */
  function TypeOf(e: Element): ElementType
  {
    match e
    case Terminal(_, _) => TERMINAL
    case MultiLineTerminal(_, _) => MULTI_LINE_TERMINAL
    case SingletonNonTerminal(_, _) => SINGLETON_NON_TERMINAL
    case NonSingletonNonTerminal(_, _) => NON_SINGLETON_NON_TERMINAL
  }

  /** `terminal(name, String)`.  `Element`'s constructor checks `name`
      before the subclass checks `value`. */
  function TerminalOf(name: Option<string>, value: Option<string>): (r: Result<Element>)
    ensures r.Ok? <==> name.Some? && value.Some?
    ensures r.Ok? ==> TypeOf(r.value) == TERMINAL && r.value.name == name.value && r.value.value == value.value
    ensures name.None? ==> r == Err("Missing 'name'.")
    ensures name.Some? && value.None? ==> r == Err("Missing 'value'.")
  {
    if name.None? then Err("Missing 'name'.")
    else if value.None? then Err("Missing 'value'.")
    else Ok(Terminal(name.value, value.value))
  }

  /** `terminal(name, ImmutableList<String>)`. */
  function MultiLineTerminalOf(name: Option<string>, lines: Option<seq<string>>): (r: Result<Element>)
    ensures r.Ok? <==> name.Some? && lines.Some?
    ensures r.Ok? ==> TypeOf(r.value) == MULTI_LINE_TERMINAL && r.value.name == name.value && r.value.lines == lines.value
    ensures name.None? ==> r == Err("Missing 'name'.")
    ensures name.Some? && lines.None? ==> r == Err("Missing 'lines'.")
  {
    if name.None? then Err("Missing 'name'.")
    else if lines.None? then Err("Missing 'lines'.")
    else Ok(MultiLineTerminal(name.value, lines.value))
  }

  /** `singletonNonTerminal(name, elements)`. */
  function SingletonNonTerminalOf(name: Option<string>, elements: Option<seq<Element>>): (r: Result<Element>)
  {
    if name.None? then Err("Missing 'name'.")
    else if elements.None? then Err("Missing 'elements'.")
    else Ok(SingletonNonTerminal(name.value, elements.value))
  }

  /** `nonSingletonNonTerminal(name, elements)`. */
  function NonSingletonNonTerminalOf(name: Option<string>, elements: Option<seq<Element>>): (r: Result<Element>)
  {
    if name.None? then Err("Missing 'name'.")
    else if elements.None? then Err("Missing 'elements'.")
    else Ok(NonSingletonNonTerminal(name.value, elements.value))
  }

  /** The two non-terminal factories accept and refuse the same arguments,
      with the same message; what they build differs in the tag only. */
  lemma NonTerminalFactories(name: Option<string>, elements: Option<seq<Element>>)
    ensures SingletonNonTerminalOf(name, elements).Ok? <==> name.Some? && elements.Some?
    ensures NonSingletonNonTerminalOf(name, elements).Ok? <==> name.Some? && elements.Some?
    ensures SingletonNonTerminalOf(name, elements).Err? ==>
      SingletonNonTerminalOf(name, elements) == NonSingletonNonTerminalOf(name, elements)
    ensures name.None? ==> SingletonNonTerminalOf(name, elements) == Err("Missing 'name'.")
    ensures name.Some? && elements.None? ==> SingletonNonTerminalOf(name, elements) == Err("Missing 'elements'.")
    ensures name.Some? && elements.Some? ==>
      var s := SingletonNonTerminalOf(name, elements).value;
      var n := NonSingletonNonTerminalOf(name, elements).value;
      && TypeOf(s) == SINGLETON_NON_TERMINAL && TypeOf(n) == NON_SINGLETON_NON_TERMINAL
      && s.name == n.name == name.value && s.elements == n.elements == elements.value
  {
  }
}
