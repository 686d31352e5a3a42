# A verified model of the `hilcode` regular-expression engine and its companions

This project models, in Dafny, the Java repository's regular-expression engine
(`com.github.hilcode.regex.internal`) and the companion packages that sit beside it.
It proves properties of the model.

**The engine, `regex/internal`**, is a pipeline:

- **Code units.** `CodeUnitReaderFromCharSequence` and `CodeUnitReaderFromInputStream`
  read UTF-16 code units. The second combines two bytes big-endian.
  They are classes whose position advances as they are read (`code_unit_readers.dfy`).
- **Code points.** `DefaultCodePointReader` combines surrogate pairs as section 2.2
  of RFC 2781 describes. It refuses a corrupt stream with "Corrupt stream.".
  `DefaultCodePointStream` and `DefaultStream` are memoised pull streams with
  write-once `head`/`tail` fields (`code_point_streams.dfy`, `streams.dfy`, `utf16.dfy`).
- **Tokens.** `DefaultTokenizer` splits a pattern into `?`, `*`, `+`, `(`, `)`,
  `\uXXXX` and literal tokens. The token texts concatenate back to the pattern
  (`tokens.dfy`, `tokenizer.dfy`).
- **Compiler.** `DefaultRegularExpression.matchExpression` compiles tokens into
  `Fork`/`Jump`/`CodePoint` basic instructions. The constructor appends `Success`.
  The method is proved equal to a reference parse-then-emit definition (`compiler.dfy`).
- **Linker.** `DefaultBasicProgram` sorts successors into matchers and ephemeral
  instructions and propagates them to a fixpoint. It then drops the ephemeral
  instructions, adds a `Start` when needed and renumbers densely
  (`basic_instructions.dfy`, `linker_graph.dfy`, `linker.dfy`).
  On success, every resolved successor set is exactly the set of matchers
  reachable through ephemeral instructions only.
- **Virtual machine.** `DefaultVirtualMachineState` and `DefaultVirtualMachine`
  run one thread list per code point. Threads are de-duplicated by program
  counter, and the first writer wins (`instructions.dfy`, `vm.dfy`, `sets.dfy`).
  The model keeps three behaviours of the code as they are:
  - success fires for the first thread in list order;
  - the code point read in the successful tick stays unread;
  - `head()` throws on an exhausted stream.

  So a run that still has threads at the end of input fails with
  "Empty stream.". For example, `a` matched against "a" fails that way
  (`VirtualMachine.EndOfInputFails`).

**Companion packages:**

- **`regex3`.** This covers:
  - the validated `CodePoint`;
  - the `CodePoints` sets and their builder, whose character range includes
    its upper bound while the two other ranges exclude it;
  - the instructions and `Range.toString`;
  - the `Builder` combinators with the `firstOf` jump arithmetic;
  - the longest-match `VirtualMachine.run`, as written
    (`regex3_code_point.dfy`, `regex3_code_points.dfy`, `regex3_instruction.dfy`,
    `regex3_builder.dfy`, `regex3_vm.dfy`, `java_strings.dfy`).

  `regex3_fixed_vm.dfy` is a corrected machine; see Findings.
- **`regex2`.** The `Words.toList` lexer with `\` escapes, and the `codePoints`
  decoder it runs first, both as written: a surrogate pair decodes as
  `toCodePoint(hi, hi)`. A corrected decoder sits beside them and is related
  to the as-written one; see Findings (`regex2.dfy`).
- **`collection`.** The persistent 2-3 finger tree: affixes, nodes, views,
  `concatenate`, and the iterators (`finger_tree.dfy`). It also has two
  eight-level nibble tries over 32-bit hashes (`nibbles.dfy`):
  - the mutable `Trie`, over arrays (`trie.dfy`);
  - the path-copying `Trie2` (`trie2.dfy`).
- **`plumbum` and `text`.** The XML model, and `Printer.toLines`, which turns a
  document into indented lines (`indentation.dfy`, `elements.dfy`,
  `document.dfy`, `printer.dfy`). Also `TextBuilder` (`text_builder.dfy`).

**Conventions:**

- Java `null` arguments are `Option`s.
- Thrown exceptions are `Err` values carrying the message the source gives
  them (`wrappers.dfy`). The class name stands in for the message in the
  places where the source throws without one or the JDK builds it:
  - `NoSuchElementException` from exhausted iterators and from `lineIt.next()`
    in `Printer.toLines`;
  - `NullPointerException` from `ImmutableList.copyOf` and from the `null`
    that the compiler's `pollLast` returns on an empty deque;
  - `IndexOutOfBoundsException` and `StringIndexOutOfBoundsException` from
    lists, bit sets and `String.charAt`/`codePointAt`.
- A lone surrogate inside a message, which a Dafny string cannot hold, is
  written as its `\uXXXX` escape.
- Decimal rendering of `int`s is in `decimal.dfy`.

## Model

| member | source | states |
|---|---|---|
| Indentations.NewIndentation | src/main/java/com/github/hilcode/plumbum/Indentation.java:34-44 | a new indentation keeps the given step and starts with empty text; a null step is refused with "Missing 'step'." |
| Indentations.IndentTimesText | src/main/java/com/github/hilcode/plumbum/Indentation.java:46-49 | `indent()` applied k times to a fresh indentation gives text (and `toString()`) equal to the step repeated k times, with the step unchanged |
| Indentations.Equals | src/main/java/com/github/hilcode/plumbum/Indentation.java:61-75 | equal exactly when the other object is non-null and has the same step and the same text |
| Indentations.HashCode | src/main/java/com/github/hilcode/plumbum/Indentation.java:51-59 | the hash, computed in wrapping 32-bit arithmetic, is a Java `int` |
| Indentations.EqualsConsistent | src/main/java/com/github/hilcode/plumbum/Indentation.java:51-75 | `equals` holds exactly for the same pair, is symmetric, and equal indentations have equal hash codes |
| Elements.TerminalOf | src/main/java/com/github/hilcode/plumbum/Element.java:23-26 | succeeds exactly when name and value are non-null and then builds a TERMINAL with them; a null name fails first with "Missing 'name'.", then a null value with "Missing 'value'." |
| Elements.MultiLineTerminalOf | src/main/java/com/github/hilcode/plumbum/Element.java:28-31 | succeeds exactly when name and lines are non-null and builds a MULTI_LINE_TERMINAL holding them; the name is checked before the lines |
| Elements.NonTerminalFactories | src/main/java/com/github/hilcode/plumbum/Element.java:33-41 | both non-terminal factories accept exactly non-null name and elements, fail with the same message ("Missing 'name'." before "Missing 'elements'."), and build values that differ only in their type tag |
| Documents.CopyOf | src/main/java/com/github/hilcode/plumbum/Document.java:91-92 | `ImmutableList.copyOf` succeeds exactly when the iterable and all its members are non-null and then keeps every member in order; otherwise it throws NullPointerException |
| Documents.CopyOfNonNull | src/main/java/com/github/hilcode/plumbum/Document.java:91-92 | copying a list without null members gives the same members back |
| Documents.NewDocument | src/main/java/com/github/hilcode/plumbum/Document.java:77-93 | the four null checks fail in source order (version, encoding, name, elements) with their messages; a null namespace list is not checked and fails in the copy; on success every field holds its argument |
| Documents.Overloads | src/main/java/com/github/hilcode/plumbum/Document.java:25-65 | each of the five `document` factories puts every argument in its own field, and the short ones default to XML 1.0, UTF-8 and no namespaces |
| TextBuilders.TextBuilder.constructor | src/main/java/com/github/hilcode/text/TextBuilder.java:27-31 | a new builder has the type's name and no properties |
| TextBuilders.TextBuilder.Add | src/main/java/com/github/hilcode/text/TextBuilder.java:33-37 | the property is appended after the existing ones, and the builder itself is returned for chaining |
| TextBuilders.TextBuilder.ToString | src/main/java/com/github/hilcode/text/TextBuilder.java:39-50 | the `StringBuilder` loop yields `(`, the type name, one ` name=value` per property in insertion order, then `)` |
| TextBuilders.TextShape | src/main/java/com/github/hilcode/text/TextBuilder.java:39-50 | the text starts with `(` and the type name and ends with `)`; with no properties it is exactly `(TypeName)` |
| TextBuilders.TextAdd | src/main/java/com/github/hilcode/text/TextBuilder.java:33-50 | after `add`, the new property's ` name=value` appears just before the closing `)` and the rest of the text is unchanged |
| TextBuilders.FieldsAppend | src/main/java/com/github/hilcode/text/TextBuilder.java:44-47 | the fields of two property lists joined together are the fields of the first list followed by the fields of the second |
| Printers.TrimEmpty | src/main/java/com/github/hilcode/plumbum/Printer.java:87 | `line.trim().isEmpty()` holds exactly when every character of the line is at or below U+0020 |
| Printers.TextLines | src/main/java/com/github/hilcode/plumbum/Printer.java:85-95 | one printed line per body line of a multi-line terminal |
| Printers.AppendElement | src/main/java/com/github/hilcode/plumbum/Printer.java:70-127 | `toLines(lines, indentation, element)` leaves `lines` as a prefix and appends exactly the element's rendering |
| Printers.AppendText | src/main/java/com/github/hilcode/plumbum/Printer.java:79-98 | the multi-line terminal loop appends the open tag, each body line one step deeper (blank lines as `""`), and the close tag |
| Printers.AppendChildren | src/main/java/com/github/hilcode/plumbum/Printer.java:105-108 | the loop over the children appends the renderings of the children in order |
| Printers.RenderIndented | src/main/java/com/github/hilcode/plumbum/Printer.java:70-127 | every line an element prints is empty or starts with the element's own indentation |
| Printers.TextLinesIndented | src/main/java/com/github/hilcode/plumbum/Printer.java:85-95 | every printed body line of a multi-line terminal is empty or starts with the deeper indentation |
| Printers.RenderAllIndented | src/main/java/com/github/hilcode/plumbum/Printer.java:62-65 | every line of a list of children is empty or starts with the children's indentation |
| Printers.RenderShape | src/main/java/com/github/hilcode/plumbum/Printer.java:74-125 | a terminal prints one line, a multi-line terminal its lines plus two tags, and every non-terminal opens with its open tag and ends with its close tag |
| Printers.AttributeAt | src/main/java/com/github/hilcode/plumbum/Printer.java:44-58 | in the intended rendering, line k of a namespace is the value's line k, with `key="` in front of the first line and `"` after the last |
| Printers.AttributeSpells | src/main/java/com/github/hilcode/plumbum/Printer.java:44-58 | the intended rendering of a namespace reads `key="`, the value, then a closing `"`, so every attribute value is delimited |
| Printers.AsWrittenUnclosed | src/main/java/com/github/hilcode/plumbum/Printer.java:44-58 | as written, a namespace with a single value among several namespaces prints as `key="u` with no closing quote |
| Printers.AsWrittenAttributeAt | src/main/java/com/github/hilcode/plumbum/Printer.java:44-58 | as written, line k of a namespace is the value's line k, with `key="` in front of the first line and `"` after the last only when the last is not also the first |
| Printers.AsWrittenAttributeAgrees | src/main/java/com/github/hilcode/plumbum/Printer.java:44-58 | as written, a namespace prints as intended exactly when it has more than one value line; a single-valued one lacks only the final `"` |
| Printers.IndentEach | src/main/java/com/github/hilcode/plumbum/Printer.java:46-56 | each line gets the indentation text in front of it |
| Printers.NamespacesFail | src/main/java/com/github/hilcode/plumbum/Printer.java:42-59 | printing the namespaces fails, with `NoSuchElementException`, exactly when some namespace has no value |
| Printers.AppendAttribute | src/main/java/com/github/hilcode/plumbum/Printer.java:44-58 | the namespace loop appends `key="first` and then each further value line, closing with `"` only a line after the first, so a single-valued namespace is left open; it fails when the namespace has no value |
| Printers.AppendNamespaces | src/main/java/com/github/hilcode/plumbum/Printer.java:41-60 | the loop over the namespaces appends their lines as written, in order, or stops at the first namespace that has no value |
| Printers.NamespacesErr | src/main/java/com/github/hilcode/plumbum/Printer.java:42-59 | a failure among the first namespaces is the failure of the whole list |
| Printers.NamespacesFirst | src/main/java/com/github/hilcode/plumbum/Printer.java:41-60 | the first printed namespace line is the first line of the first namespace |
| Printers.DocumentUnclosed | src/main/java/com/github/hilcode/plumbum/Printer.java:23-68 | a printed document with several namespaces whose first has one value line shows that namespace as `key="u`, without its closing quote |
| Printers.DocumentLinesOf | src/main/java/com/github/hilcode/plumbum/Printer.java:23-68 | `toLines(indentation, document)` produces the declaration, the root's open tag in one of its three forms (the multi-line one with its namespaces as written), the children one step deeper, and the root's close tag |
| Printers.DocumentShape | src/main/java/com/github/hilcode/plumbum/Printer.java:23-68 | a document fails to print exactly when it needs the multi-line open tag and some namespace has no value; a printed document starts with the declaration, ends with the close tag, and its children never print left of the deeper indentation |
| MutableTries.NewBlock | src/main/java/com/github/hilcode/collection/Trie.java:61-65 | a fresh block of sixteen slots, each holding `EMPTY` |
| MutableTries.StoreAtPath | src/main/java/com/github/hilcode/collection/Trie.java:112-137 | storing a value under a hash's path changes what is seen for that hash and for no other hash |
| MutableTries.Trie.constructor | src/main/java/com/github/hilcode/collection/Trie.java:59-67 | a new trie is a valid tree with nothing stored |
| MutableTries.Trie.Descend | src/main/java/com/github/hilcode/collection/Trie.java:74-85 | following a sub-array reaches the next block on the hash's path, and meeting `EMPTY` above the leaves means nothing is stored under that hash |
| MutableTries.Trie.AtLeaf | src/main/java/com/github/hilcode/collection/Trie.java:86-87 | the leaf slot of a hash holds the value stored for it, or `EMPTY` |
| MutableTries.Trie.Contains | src/main/java/com/github/hilcode/collection/Trie.java:69-88 | `contains` is true exactly when a value was put for the hash |
| MutableTries.Trie.Get | src/main/java/com/github/hilcode/collection/Trie.java:90-110 | `get` returns the value last put for the hash, or the default when none was put |
| MutableTries.Trie.Grow | src/main/java/com/github/hilcode/collection/Trie.java:121-129 | hanging a fresh empty block under an `EMPTY` slot keeps the trie valid and leaves the stored values unchanged |
| MutableTries.Trie.Store | src/main/java/com/github/hilcode/collection/Trie.java:135 | writing the leaf slot records the value for exactly that hash and keeps the trie valid |
| MutableTries.Trie.Advance | src/main/java/com/github/hilcode/collection/Trie.java:117-134 | one level of `put`'s walk reaches the next block on the path, creating it if needed, with the stored values unchanged |
| MutableTries.Trie.Ancestors | src/main/java/com/github/hilcode/collection/Trie.java:112-134 | every prefix of a path whose block exists also has a block |
| MutableTries.Trie.Put | src/main/java/com/github/hilcode/collection/Trie.java:112-137 | `put` records the value for the hash, keeps every other hash's value, keeps the trie valid and returns the trie itself |
| Nibbles.NibbleBound | src/main/java/com/github/hilcode/collection/Trie.java:76 | the slot a hash selects at any level is below 16 |
| Nibbles.WalkStart | src/main/java/com/github/hilcode/collection/Trie.java:49-51 | the walk starts from `START_MASK` and `START_SHIFT`, the root level's mask and shift |
| Nibbles.WalkStep | src/main/java/com/github/hilcode/collection/Trie.java:76 | `(hash & mask) >>> shift` with a level's running mask and shift reads that level's nibble of the hash |
| Nibbles.MaskStep | src/main/java/com/github/hilcode/collection/Trie.java:82-83 | `shift -= SHIFT_STEP; mask >>>= SHIFT_STEP` gives the next level's mask and shift |
| Nibbles.PathAt | src/main/java/com/github/hilcode/collection/Trie.java:74-87 | a hash's path holds, at each level, that level's nibble |
| Nibbles.PathShape | src/main/java/com/github/hilcode/collection/Trie.java:74-87 | a hash's path is eight slots, each below 16 |
| Nibbles.SlotAt | src/main/java/com/github/hilcode/collection/Trie.java:119 | the slot the walk computes at a level is the hash's path at that level |
| Nibbles.PathInjective | src/main/java/com/github/hilcode/collection/Trie.java:69-137 | two hashes share a leaf slot exactly when they are equal |
| PersistentTries.AgreesStep | src/main/java/com/github/hilcode/collection/Trie2.java:141-180 | two hashes reach the same leaf slot from a level down exactly when they pick the same slot at that level and agree below it |
| PersistentTries.Fresh | src/main/java/com/github/hilcode/collection/Trie2.java:128-139 | `new LevelN(parent)` is a well-formed node with its array, sixteen `none()` children (or sixteen `empty` values at level 8) and a count of 0 |
| PersistentTries.FreshHeld | src/main/java/com/github/hilcode/collection/Trie2.java:754-765 | below a fresh node every leaf slot holds `empty` |
| PersistentTries.TotalNone | src/main/java/com/github/hilcode/collection/Trie2.java:128-139 | sixteen `none()` children add up to a count of 0 |
| PersistentTries.OccupiedNone | src/main/java/com/github/hilcode/collection/Trie2.java:754-765 | sixteen `empty` values count as no elements |
| PersistentTries.TotalUpdate | src/main/java/com/github/hilcode/collection/Trie2.java:173-176 | replacing one child changes the summed count by the difference between the old and new child's counts |
| PersistentTries.OccupiedUpdate | src/main/java/com/github/hilcode/collection/Trie2.java:798-801 | replacing one leaf slot changes the element count by one at most, as the old and new values are or are not `empty` |
| PersistentTries.SumCounts | src/main/java/com/github/hilcode/collection/Trie2.java:117-126 | the `elementCount` loop of `LevelN(nodes_)` yields the sum of the children's counts |
| PersistentTries.CountOccupied | src/main/java/com/github/hilcode/collection/Trie2.java:740-752 | the `elementCount` loop of `Level8(parent, nodes_)` counts the slots that differ from `parent.empty` |
| PersistentTries.PutLevel | src/main/java/com/github/hilcode/collection/Trie2.java:155-179 | `LevelN.put` (a `none()` node replaced by a fresh one first) returns a well-formed node that holds the value at the hash's slot and is unchanged elsewhere; it is the same node exactly when nothing had to change, and its count moves by the change at that slot |
| PersistentTries.PutBranch | src/main/java/com/github/hilcode/collection/Trie2.java:161-178 | `put` on levels 1 to 7 returns the node itself when the child comes back unchanged, otherwise a copy with that child replaced and a recomputed count, and the result is the updated node |
| PersistentTries.BranchUpdated | src/main/java/com/github/hilcode/collection/Trie2.java:161-178 | given an updated child, the branch case of `put` updates the branch |
| PersistentTries.BranchCount | src/main/java/com/github/hilcode/collection/Trie2.java:173-176 | the copied branch is well-formed and its count moves with its child's |
| PersistentTries.BranchHeld | src/main/java/com/github/hilcode/collection/Trie2.java:173-176 | the copied branch holds the value at the hash's slot and what the old node held everywhere else |
| PersistentTries.PutLeaf | src/main/java/com/github/hilcode/collection/Trie2.java:781-804 | `Level8.put` returns the node itself when the value equals the one in the slot, otherwise a copy with that slot replaced and a recounted total |
| PersistentTries.LeafUpdated | src/main/java/com/github/hilcode/collection/Trie2.java:789-802 | the leaf case of `put` updates the leaf |
| PersistentTries.Find | src/main/java/com/github/hilcode/collection/Trie2.java:148-153 | `LevelN.get` below a node returns the value in the hash's leaf slot, or the default value when that slot is `empty` or a `none()` node lies on the way |
| PersistentTries.Has | src/main/java/com/github/hilcode/collection/Trie2.java:767-772 | `LevelN.contains` holds when the hash's leaf slot is not `empty` and either equals the element or the element is null |
| PersistentTries.NewTrie2 | src/main/java/com/github/hilcode/collection/Trie2.java:71-76 | a new trie is valid, keeps the given `empty` value and has no elements |
| PersistentTries.Get | src/main/java/com/github/hilcode/collection/Trie2.java:90-93 | `get` returns the value in the hash's leaf slot, or the default value when the slot is `empty` |
| PersistentTries.Contains | src/main/java/com/github/hilcode/collection/Trie2.java:85-88 | `contains` holds when the hash's slot is not `empty` and the slot equals the element, or the element is null |
| PersistentTries.NewTrie2Empty | src/main/java/com/github/hilcode/collection/Trie2.java:71-93 | nothing is found in a new trie |
| PersistentTries.Put | src/main/java/com/github/hilcode/collection/Trie2.java:95-99 | after `put`, `get` of that hash gives the value (the default if the value is `empty`) and every other hash is unchanged; the receiver itself is returned exactly when nothing changed; the count moves by one at most |
| FingerTrees.ItemsOfAllConcat | src/main/java/com/github/hilcode/collection/FingerTree.java:257-304 | the values below two runs of elements joined together are the first run's values followed by the second's |
| FingerTrees.ItemsOfFour | src/main/java/com/github/hilcode/collection/Functions.java:128-137 | the four elements of a full affix hold the same values in order whether read as `a` then `Branch3(b, c, d)` or as `Branch3(a, b, c)` then `d` |
| FingerTrees.Children | src/main/java/com/github/hilcode/collection/Node.java:87-191 | a node's iterator yields two or three elements that hold the node's values in order |
| FingerTrees.ChildrenLevel | src/main/java/com/github/hilcode/collection/Node.java:60-191 | the children of a node one level up are all one level down |
| FingerTrees.Slots | src/main/java/com/github/hilcode/collection/Affix.java:84-345 | an affix holds one to four elements |
| FingerTrees.AffixPrepend | src/main/java/com/github/hilcode/collection/Functions.java:54-77 | prepending to an affix puts the element in front and succeeds exactly when the affix is not a `Four`; a `Four` fails with "Unable to prepend to an Affix.Four." |
| FingerTrees.AffixAppend | src/main/java/com/github/hilcode/collection/Functions.java:79-102 | appending to an affix puts the element at the back and succeeds exactly when the affix is not a `Four`; a `Four` fails with "Unable to append to an Affix.Four." |
| FingerTrees.FromNode | src/main/java/com/github/hilcode/collection/Functions.java:196-212 | `fromNode` gives an affix holding the node's elements in order |
| FingerTrees.Prepend | src/main/java/com/github/hilcode/collection/Functions.java:104-148 | the prepended tree holds the element's values followed by the tree's values; it is never empty, and it is deep when the tree was not empty |
| FingerTrees.FullPrefixItems | src/main/java/com/github/hilcode/collection/Functions.java:128-138 | prepending to a full prefix, `[x, a]` plus `Branch3(b, c, d)` pushed into the deeper tree, keeps the values in order |
| FingerTrees.Append | src/main/java/com/github/hilcode/collection/Functions.java:150-194 | the appended tree holds the tree's values followed by the element's values; it is never empty, and it is deep when the tree was not empty |
| FingerTrees.FullSuffixItems | src/main/java/com/github/hilcode/collection/Functions.java:174-184 | appending to a full suffix, `Branch3(a, b, c)` pushed into the deeper tree plus `[d, x]`, keeps the values in order |
| FingerTrees.FourLevels | src/main/java/com/github/hilcode/collection/Functions.java:128-137 | a full affix of depth-n elements yields depth n+1 nodes from three of its elements |
| FingerTrees.PrependWell | src/main/java/com/github/hilcode/collection/Functions.java:104-148 | prepending an element of the tree's depth keeps every deeper tree holding nodes one level deeper |
| FingerTrees.AppendWell | src/main/java/com/github/hilcode/collection/Functions.java:150-194 | appending an element of the tree's depth keeps the depth invariant |
| FingerTrees.SuffixTree | src/main/java/com/github/hilcode/collection/Functions.java:241-263 | the tree `viewLeft` builds from a lone suffix holds the suffix's values and is well-formed |
| FingerTrees.PrefixTree | src/main/java/com/github/hilcode/collection/Functions.java:321-343 | the tree `viewRight` builds from a lone prefix holds the prefix's values and is well-formed |
| FingerTrees.AffixTail | src/main/java/com/github/hilcode/collection/Functions.java:274-289 | an affix without its first element holds the remaining elements |
| FingerTrees.AffixInit | src/main/java/com/github/hilcode/collection/Functions.java:353-368 | an affix without its last element holds the preceding elements |
| FingerTrees.ViewLeft | src/main/java/com/github/hilcode/collection/Functions.java:214-293 | `viewLeft` is `Nil` exactly for the empty tree; otherwise the first element's values followed by the rest's values are the tree's values, and the rest is well-formed |
| FingerTrees.PulledLeftItems | src/main/java/com/github/hilcode/collection/Functions.java:266-271 | with a prefix of one, turning the first node of the deeper tree into the prefix keeps the values in order |
| FingerTrees.TailLeftItems | src/main/java/com/github/hilcode/collection/Functions.java:274-289 | with a longer prefix, taking its first element off keeps the values in order |
| FingerTrees.ViewRight | src/main/java/com/github/hilcode/collection/Functions.java:295-372 | `viewRight` is `Nil` exactly for the empty tree; otherwise the rest's values followed by the last element's values are the tree's values, and the rest is well-formed |
| FingerTrees.PulledRightItems | src/main/java/com/github/hilcode/collection/Functions.java:345-350 | with a suffix of one, turning the last node of the deeper tree into the suffix keeps the values in order |
| FingerTrees.InitRightItems | src/main/java/com/github/hilcode/collection/Functions.java:353-368 | with a longer suffix, taking its last element off keeps the values in order |
| FingerTrees.Nodes | src/main/java/com/github/hilcode/collection/Functions.java:459-673 | grouping two or more elements into nodes, threes first, keeps their values in order and gives no more nodes than a third of them, rounded up |
| FingerTrees.NodesLevel | src/main/java/com/github/hilcode/collection/Functions.java:459-673 | grouping depth-n elements gives depth n+1 nodes |
| FingerTrees.Join | src/main/java/com/github/hilcode/collection/Functions.java:459-673 | `join` gives one to three nodes holding the left affix's values followed by the right affix's |
| FingerTrees.JoinLevel | src/main/java/com/github/hilcode/collection/Functions.java:459-673 | joining affixes of depth-n elements gives depth n+1 nodes |
| FingerTrees.ItemsOfSnoc | src/main/java/com/github/hilcode/collection/Functions.java:685-693 | the values of a run of nodes are those of all but the last, then the last's |
| FingerTrees.PrependAll | src/main/java/com/github/hilcode/collection/Functions.java:675-683 | prepending the nodes from the last to the first gives the nodes' values in front of the tree's |
| FingerTrees.AppendAll | src/main/java/com/github/hilcode/collection/Functions.java:685-693 | appending the nodes from the first to the last gives the tree's values followed by the nodes', and a deep tree stays deep |
| FingerTrees.AppendLastItems | src/main/java/com/github/hilcode/collection/Functions.java:685-693 | appending the last node after the others completes the nodes' values behind the tree's |
| FingerTrees.PrependAllWell | src/main/java/com/github/hilcode/collection/Functions.java:675-683 | prepending nodes of the tree's depth keeps the depth invariant |
| FingerTrees.AppendAllWell | src/main/java/com/github/hilcode/collection/Functions.java:685-693 | appending nodes of the tree's depth keeps the depth invariant |
| FingerTrees.Concat3 | src/main/java/com/github/hilcode/collection/Functions.java:414-457 | the inner `concatenate` of two deep trees is deep |
| FingerTrees.Concat3Items | src/main/java/com/github/hilcode/collection/Functions.java:414-457 | the inner `concatenate` holds the left tree's values, then the two affixes', then the right tree's |
| FingerTrees.Concat3FrontItems | src/main/java/com/github/hilcode/collection/Functions.java:420-430 | the cases where the left deeper tree is empty or a singleton keep the values in order |
| FingerTrees.Concat3Front | src/main/java/com/github/hilcode/collection/Functions.java:420-430 | with a left tree that is not deep, the nodes of the joined affixes go in front of the right tree |
| FingerTrees.Concat3BackItems | src/main/java/com/github/hilcode/collection/Functions.java:436-446 | the cases where only the left tree is deep keep the values in order |
| FingerTrees.Concat3DeepItems | src/main/java/com/github/hilcode/collection/Functions.java:451-456 | the case where both trees are deep keeps the values in order |
| FingerTrees.DeepItems | src/main/java/com/github/hilcode/collection/Functions.java:408-411 | a deep tree over the inner concatenation holds the left deep tree's values followed by the right's |
| FingerTrees.Concatenate | src/main/java/com/github/hilcode/collection/Functions.java:374-412 | `concatenate(left, right)` holds the values of `left` followed by those of `right` |
| FingerTrees.Concat3Well | src/main/java/com/github/hilcode/collection/Functions.java:414-457 | the inner concatenation of well-formed trees is well-formed |
| FingerTrees.Concat3DeepWell | src/main/java/com/github/hilcode/collection/Functions.java:451-456 | the deep case of the inner concatenation is well-formed |
| FingerTrees.ConcatenateWell | src/main/java/com/github/hilcode/collection/Functions.java:374-412 | concatenating two well-formed trees gives a well-formed tree |
| FingerTrees.PrependArray | src/main/java/com/github/hilcode/collection/Functions.java:675-683 | the `prependArray` loop puts the array's values in front of the tree's |
| FingerTrees.AppendArray | src/main/java/com/github/hilcode/collection/Functions.java:685-693 | the `appendArray` loop puts the array's values after the tree's |
| FingerTrees.From | src/main/java/com/github/hilcode/collection/FingerTree.java:39-57 | `from` gives a well-formed tree holding the array's values in order |
| FingerTrees.Unwrap | src/main/java/com/github/hilcode/collection/FingerTree.java:290-300 | the children of the nodes, taken in order, hold the same values as the nodes |
| FingerTrees.UnwrapLevel | src/main/java/com/github/hilcode/collection/FingerTree.java:290-300 | the children of depth n+1 nodes are depth-n elements |
| FingerTrees.ElemsOf | src/main/java/com/github/hilcode/collection/FingerTree.java:246-304 | a tree's iterator yields elements of the tree's depth that hold its values in order |
| FingerTrees.LeavesInOrder | src/main/java/com/github/hilcode/collection/FingerTree.java:246-304 | a tree of values yields one value per element, in order |
| FingerTrees.SlotIterator.constructor | src/main/java/com/github/hilcode/collection/Affix.java:116-120 | a new affix, node or singleton iterator has all its elements still to yield |
| FingerTrees.SlotIterator.OfAffix | src/main/java/com/github/hilcode/collection/Affix.java:97-100 | an affix's iterator yields the affix's elements |
| FingerTrees.SlotIterator.OfNode | src/main/java/com/github/hilcode/collection/Node.java:76-79 | a node's iterator yields the node's children |
| FingerTrees.SlotIterator.HasNext | src/main/java/com/github/hilcode/collection/Affix.java:320-323 | `hasNext` holds exactly when some element is left to yield |
| FingerTrees.SlotIterator.Next | src/main/java/com/github/hilcode/collection/Affix.java:326-342 | `next` counts itself in `index` and yields the next element, or `NoSuchElementException` past the end |
| FingerTrees.DeepIterator.constructor | src/main/java/com/github/hilcode/collection/FingerTree.java:269-274 | a deep tree's iterator has every element of the tree still to yield |
| FingerTrees.DeepIterator.HasNext | src/main/java/com/github/hilcode/collection/FingerTree.java:277-280 | `hasNext` holds exactly when some element is left to yield |
| FingerTrees.DeepIterator.Next | src/main/java/com/github/hilcode/collection/FingerTree.java:283-303 | `next` yields the next element in iteration order, or `NoSuchElementException` when none is left |
| FingerTrees.DeepIterator.Advance | src/main/java/com/github/hilcode/collection/FingerTree.java:290-301 | once the current iterator is exhausted, it moves to the next node's iterator or to the suffix's |
| Regex2.NewState | src/main/java/com/github/hilcode/regex2/Regex.java:337-344 | a code point state is built exactly when the index lies between 0 and the text's length; otherwise the error is "Invalid index: i." or "Invalid index: i >= n." |
| Regex2.NextCodePointAsWritten | src/main/java/com/github/hilcode/regex2/Regex.java:352-387 | as written, the step fails at the end of the text and on a lone surrogate with the source's "Corrupt stream: …" message, and otherwise appends the as-written value of the code point at the index (a pair reads as `toCodePoint(hi, hi)`) and moves past its one or two chars |
| Regex2.NextCodePoint | src/main/java/com/github/hilcode/regex2/Regex.java:352-387 | the corrected step fails at the end of the text, fails with the same "Corrupt stream: …" message exactly on a lone surrogate, and otherwise appends the code point read at the index and moves past its one or two chars |
| Regex2.DecodeFromReads | src/main/java/com/github/hilcode/regex2/Regex.java:389-408 | the corrected loop succeeds exactly when the rest of the text has no lone surrogate, and then yields the queue followed by the rest's code points |
| Regex2.DecodeFromStep | src/main/java/com/github/hilcode/regex2/Regex.java:394-406 | one pass of the loop either fails on a surrogate or continues past the code point just read |
| Regex2.WellPairedStep | src/main/java/com/github/hilcode/regex2/Regex.java:394-406 | the text from an index is free of lone surrogates exactly when its first code point is not a surrogate and the remainder is free of them |
| Regex2.DecodeRoundTrip | src/main/java/com/github/hilcode/regex2/Regex.java:389-408 | a text without lone surrogates decodes to its code points, and writing those back as chars gives the text |
| Regex2.DecodeOfEncoding | src/main/java/com/github/hilcode/regex2/Regex.java:389-408 | decoding the UTF-16 encoding of any scalar values gives those values back |
| Regex2.AsWrittenPairDecode | src/main/java/com/github/hilcode/regex2/Regex.java:384-385 | as written, U+10000 encoded as `D800 DC00` decodes to `FC00`, where the corrected step gives U+10000 |
| Regex2.PairValue | src/main/java/com/github/hilcode/regex2/Regex.java:384-385 | as written, the code point of a pair `hi lo` is read as `toCodePoint(hi, hi)` |
| Regex2.AsWrittenValuesBelow | src/main/java/com/github/hilcode/regex2/Regex.java:376-386 | on code points below U+10000 the as-written and the corrected decoding agree |
| Regex2.DecodeAsWrittenReads | src/main/java/com/github/hilcode/regex2/Regex.java:389-408 | the as-written loop fails exactly where the corrected one does (on a lone surrogate), and otherwise yields the queue followed by the as-written values of the rest's code points |
| Regex2.CodePoints | src/main/java/com/github/hilcode/regex2/Regex.java:389-408 | `codePoints(text)` as written succeeds exactly when the text has no lone surrogate, and then returns the as-written values of its code points (each pair read as `toCodePoint(hi, hi)`) |
| Regex2.WordOf | src/main/java/com/github/hilcode/regex2/Regex.java:294-319 | an unescaped code point that is not an operator is a literal word for itself |
| Regex2.LexedSnoc | src/main/java/com/github/hilcode/regex2/Regex.java:286-320 | the loop over one more code point is one more pass of its body |
| Regex2.TrailingBackslashes | src/main/java/com/github/hilcode/regex2/Regex.java:321-324 | the count of backslashes a pattern ends with is no more than its length |
| Regex2.LexFails | src/main/java/com/github/hilcode/regex2/Regex.java:276-326 | `toList` ends inside an escape, and fails with `Pattern ended with an escape ('\').`, exactly when the pattern ends with an odd number of backslashes |
| Regex2.Spelled | src/main/java/com/github/hilcode/regex2/Regex.java:288-319 | a word is written as one or two code points |
| Regex2.LexedSpelled | src/main/java/com/github/hilcode/regex2/Regex.java:286-320 | outside an escape, lexing a word's spelling adds exactly that word |
| Regex2.SpelledShape | src/main/java/com/github/hilcode/regex2/Regex.java:288-319 | a word's spelling is one code point that lexes to it, or a backslash and the literal |
| Regex2.LexSpelling | src/main/java/com/github/hilcode/regex2/Regex.java:276-326 | `toList` reads back any sequence of words from its spelling |
| Regex2.ToList | src/main/java/com/github/hilcode/regex2/Regex.java:276-326 | `Words.toList` fails exactly on a lone surrogate (with the decoder's message) or a trailing escape, and otherwise lexes the as-written values of the pattern's code points |
| Regex3CodePoint.OfInt | src/main/java/com/github/hilcode/regex3/CodePoint.java:22-47 | `CodePoint.of(int)` accepts exactly the defined characters, and keeps the value; anything else fails with "Invalid code point: n." |
| Regex3CodePoint.OfChar | src/main/java/com/github/hilcode/regex3/CodePoint.java:27-61 | `CodePoint.of(char)` accepts exactly the units that are not surrogates, and keeps the value; a surrogate fails with "Invalid code point: c is a surrogate." |
| Regex3CodePoint.OfPair | src/main/java/com/github/hilcode/regex3/CodePoint.java:32-71 | `CodePoint.of(high, low)` accepts exactly a high surrogate followed by a low one, and gives the supplementary code point whose UTF-16 encoding they are; otherwise it fails with "… is not a high surrogate." or "… is not a low surrogate.", checked in that order |
| Regex3CodePoint.OfPairOfEncoding | src/main/java/com/github/hilcode/regex3/CodePoint.java:63-72 | the two units encoding any supplementary code point are accepted and stand for that code point |
| Regex3CodePoints.Span | src/main/java/com/github/hilcode/regex3/CodePoints.java:94-97 | the range holds exactly the naturals from the lower bound up to, not including, the upper bound |
| Regex3CodePoints.BitSet.constructor | src/main/java/com/github/hilcode/regex3/CodePoints.java:70 | a new `BitSet` is empty |
| Regex3CodePoints.BitSet.Set | src/main/java/com/github/hilcode/regex3/CodePoints.java:74 | `set(i)` adds `i`, and a negative index fails with `IndexOutOfBoundsException` and changes nothing |
| Regex3CodePoints.BitSet.SetRange | src/main/java/com/github/hilcode/regex3/CodePoints.java:108 | `set(from, to)` adds the half-open range, and negative or reversed bounds fail with `IndexOutOfBoundsException` and change nothing |
| Regex3CodePoints.BitSet.Get | src/main/java/com/github/hilcode/regex3/CodePoints.java:65 | `get(i)` tells whether `i` is in the set, and a negative index fails |
| Regex3CodePoints.CodePoints.constructor | src/main/java/com/github/hilcode/regex3/CodePoints.java:57-61 | a built set shares the `BitSet` it is given |
| Regex3CodePoints.CodePoints.Contains | src/main/java/com/github/hilcode/regex3/CodePoints.java:63-66 | `contains` tells whether the code point's value is in the set; `EOF` and every other negative value fail with `IndexOutOfBoundsException` |
| Regex3CodePoints.SingleCodePoint | src/main/java/com/github/hilcode/regex3/CodePoints.java:124-130 | `toCodePoint(s)` succeeds exactly when the string holds one code point, and returns it; an empty string fails at `codePointAt(0)` and a longer string fails with "Invalid single character String." |
| Regex3CodePoints.Builder.constructor | src/main/java/com/github/hilcode/regex3/CodePoints.java:68-70 | a new builder holds no code points |
| Regex3CodePoints.Builder.AndChar | src/main/java/com/github/hilcode/regex3/CodePoints.java:72-76 | `and(char)` adds the char and returns the builder |
| Regex3CodePoints.Builder.AndString | src/main/java/com/github/hilcode/regex3/CodePoints.java:78-83 | `and(String)` adds the string's one code point, or fails with `toCodePoint`'s error and adds nothing |
| Regex3CodePoints.Builder.AndCodePoint | src/main/java/com/github/hilcode/regex3/CodePoints.java:85-89 | `and(CodePoint)` adds the value, and `EOF` fails with `IndexOutOfBoundsException` |
| Regex3CodePoints.Builder.AndCharRange | src/main/java/com/github/hilcode/regex3/CodePoints.java:91-99 | `and(char, char)` adds every char from the lower bound to the upper bound inclusive, and a reversed range fails with "Invalid range." and adds nothing |
| Regex3CodePoints.Builder.AndStringRange | src/main/java/com/github/hilcode/regex3/CodePoints.java:101-110 | `and(String, String)` adds the code points from the lower bound up to, not including, the upper bound, and fails when either string is not one code point or, with "Invalid range.", when the range is reversed |
| Regex3CodePoints.Builder.AndCodePointRange | src/main/java/com/github/hilcode/regex3/CodePoints.java:112-117 | `and(CodePoint, CodePoint)` adds the half-open range, and fails on a reversed range ("Invalid range.") or a negative lower bound, adding nothing |
| Regex3CodePoints.Builder.Build | src/main/java/com/github/hilcode/regex3/CodePoints.java:119-122 | `build()` refuses an empty set with "Empty CodePoints.", and otherwise returns a set that shares the builder's `BitSet` |
| Regex3Instruction.OffsetTextReadsBack | src/main/java/com/github/hilcode/regex3/Instruction.java:154-177 | `FORK` and `JUMP` render as the name, a space, `+` exactly for a positive offset and `-` exactly for a negative one, then digits that read back as the offset |
| Regex3Instruction.RunEnd | src/main/java/com/github/hilcode/regex3/Instruction.java:101-108 | a run that starts at a member ends at a member whose successor is not a member, and every number in between is a member |
| Regex3Instruction.RunsUnfold | src/main/java/com/github/hilcode/regex3/Instruction.java:99-116 | the first run starts at the least member, and the other runs are the runs of the members above it |
| Regex3Instruction.RunsAbove | src/main/java/com/github/hilcode/regex3/Instruction.java:99-116 | every run starts above any bound that lies below all members |
| Regex3Instruction.RunsSeparated | src/main/java/com/github/hilcode/regex3/Instruction.java:101-116 | the runs are non-empty, ascending, and separated by at least one non-member |
| Regex3Instruction.RunsUnextendable | src/main/java/com/github/hilcode/regex3/Instruction.java:101-116 | no run can be extended at either end |
| Regex3Instruction.RunsCover | src/main/java/com/github/hilcode/regex3/Instruction.java:101-116 | a number is a member exactly when it lies in one of the runs |
| Regex3Instruction.RunsAreMaximal | src/main/java/com/github/hilcode/regex3/Instruction.java:95-118 | the runs `Range.toString` lists are the maximal runs of consecutive members |
| Regex3Instruction.NextSetBitOf | src/main/java/com/github/hilcode/regex3/Instruction.java:99-103 | `nextSetBit(from)` is the least member at or after `from`, or -1 when there is none |
| Regex3Instruction.NextSetBit | src/main/java/com/github/hilcode/regex3/Instruction.java:103 | the method gives `nextSetBit(from)` |
| Regex3Instruction.RunEndFrom | src/main/java/com/github/hilcode/regex3/Instruction.java:103-107 | a run that covers an interval and stops before a non-member ends at the top of that interval |
| Regex3Instruction.RunsStep | src/main/java/com/github/hilcode/regex3/Instruction.java:109-115 | closing a run leaves the runs of the members above it to be written |
| Regex3Instruction.CloseRun | src/main/java/com/github/hilcode/regex3/Instruction.java:109-115 | the loop step that writes a finished run adds that run to those written and leaves the rest to be written |
| Regex3Instruction.JoinedSnoc | src/main/java/com/github/hilcode/regex3/Instruction.java:120-134 | writing one more run appends it with `appendRange` |
| Regex3Instruction.ExtendRun | src/main/java/com/github/hilcode/regex3/Instruction.java:104-107 | when the next member is the one right after the run, the run grows by one and fewer members are left |
| Regex3Instruction.StartRun | src/main/java/com/github/hilcode/regex3/Instruction.java:114-115 | the next member starts a new run further up |
| Regex3Instruction.NextAbove | src/main/java/com/github/hilcode/regex3/Instruction.java:103-115 | a member found after the run leaves fewer members above it, so the loop terminates |
| Regex3Instruction.FinishWritesRuns | src/main/java/com/github/hilcode/regex3/Instruction.java:101-116 | from any state of the loop, the loop goes on to write all the maximal runs |
| Regex3Instruction.FinishFromFirst | src/main/java/com/github/hilcode/regex3/Instruction.java:97-117 | started at the least member, the loop writes all the maximal runs |
| Regex3Instruction.SingleText | src/main/java/com/github/hilcode/regex3/Instruction.java:75-79 | `Single.toString` is `SINGLE '`, one UTF-16 unit, and `'`; that unit is the code point when the code point fits in 16 bits, and 0xFFFF for `EOF` |
| Regex3Instruction.RangeToString | src/main/java/com/github/hilcode/regex3/Instruction.java:94-118 | `Range.toString` is `RANGE ` followed by the maximal runs of members in ascending order, separated by commas |
| Regex3Builder.FitsConcat | src/main/java/com/github/hilcode/regex3/Regex.java:132-139 | two programs that each fit where they are placed still fit once pasted one after the other |
| Regex3Builder.FitsShift | src/main/java/com/github/hilcode/regex3/Regex.java:132-139 | offsets are relative, so a closed program fits wherever it is placed |
| Regex3Builder.ClosedConcat | src/main/java/com/github/hilcode/regex3/Regex.java:132-139 | pasting closed programs one after the other keeps the result closed |
| Regex3Builder.ClosedThenSuccess | src/main/java/com/github/hilcode/regex3/Regex.java:187-191 | a closed program followed by `SUCCESS` is well formed: every thread stays inside the program |
| Regex3Builder.OptionalOf | src/main/java/com/github/hilcode/regex3/Regex.java:141-146 | `optional(E)` lays out a `FORK` past `E`, then `E` |
| Regex3Builder.OptionalClosed | src/main/java/com/github/hilcode/regex3/Regex.java:141-146 | both ways out of the `FORK` of `optional(E)` stay in the layout, the skip landing just past its end |
| Regex3Builder.ZeroOrMoreOf | src/main/java/com/github/hilcode/regex3/Regex.java:148-154 | `zeroOrMore(E)` lays out a `FORK` past the loop, `E`, and a `JUMP` back to the `FORK` |
| Regex3Builder.ZeroOrMoreClosed | src/main/java/com/github/hilcode/regex3/Regex.java:148-154 | the `FORK` of `zeroOrMore` leaves just past the loop and its `JUMP` lands on the `FORK`, so the layout is closed |
| Regex3Builder.AlternativesLength | src/main/java/com/github/hilcode/regex3/Regex.java:156-185 | `firstOf` over k alternatives is the sum of their lengths plus 2(k-1) instructions long |
| Regex3Builder.AlternativesAt | src/main/java/com/github/hilcode/regex3/Regex.java:170-183 | past the first alternative's `FORK`, body and `JUMP` come the other alternatives' instructions |
| Regex3Builder.AlternativesGuards | src/main/java/com/github/hilcode/regex3/Regex.java:170-183 | every alternative but the last starts with a `FORK` to the next alternative and ends with a `JUMP` past the whole construct |
| Regex3Builder.AlternativesClosed | src/main/java/com/github/hilcode/regex3/Regex.java:156-185 | `firstOf` over closed alternatives is closed |
| Regex3Builder.Singles | src/main/java/com/github/hilcode/regex3/Regex.java:120-130 | the program of a text holds one `SINGLE` per code point, in order |
| Regex3Builder.DefinedPrefix | src/main/java/com/github/hilcode/regex3/Regex.java:122-128 | the code points that `text(s)` adds before `CodePoint.of` first refuses one: all defined, and followed by an undefined one if any remain |
| Regex3Builder.SinglesClosed | src/main/java/com/github/hilcode/regex3/Regex.java:120-130 | a run of `SINGLE`s is closed |
| Regex3Builder.ConcatenationOfOthers | src/main/java/com/github/hilcode/regex3/Regex.java:132-139 | without the receiver among its arguments, `concat` appends the arguments' programs in argument order |
| Regex3Builder.ConcatClosed | src/main/java/com/github/hilcode/regex3/Regex.java:132-139 | the concatenation of closed programs is closed |
| Regex3Builder.ConcatenationClosed | src/main/java/com/github/hilcode/regex3/Regex.java:132-139 | `concat` of closed programs, the receiver's included, is closed |
| Regex3Builder.Builder.constructor | src/main/java/com/github/hilcode/regex3/Regex.java:86-91 | a new builder has an empty program, which is closed |
| Regex3Builder.Builder.CodePointChar | src/main/java/com/github/hilcode/regex3/Regex.java:93-96 | `codePoint(char)` appends one `SINGLE`, and a surrogate is refused with "Invalid code point: c is a surrogate." and adds nothing |
| Regex3Builder.Builder.CodePointPair | src/main/java/com/github/hilcode/regex3/Regex.java:98-101 | `codePoint(high, low)` appends the `SINGLE` of the pair's code point, and anything but a surrogate pair is refused with `CodePoint.of`'s message, adding nothing |
| Regex3Builder.Builder.CodePointValue | src/main/java/com/github/hilcode/regex3/Regex.java:103-107 | `codePoint(CodePoint)` appends one `SINGLE` of that code point and returns the builder |
| Regex3Builder.Builder.CodePointSet | src/main/java/com/github/hilcode/regex3/Regex.java:114-118 | `codePoints(CodePoints)` appends one `RANGE` over the set's members |
| Regex3Builder.Builder.CodePointSetBuilder | src/main/java/com/github/hilcode/regex3/Regex.java:109-112 | `codePoints(CodePoints.Builder)` builds the set first, so an empty set is refused with "Empty CodePoints." and nothing is added |
| Regex3Builder.Builder.Text | src/main/java/com/github/hilcode/regex3/Regex.java:120-130 | `text(s)` succeeds exactly when every code point is defined; it appends one `SINGLE` per code point, and on failure keeps those added before the refused one and reports "Invalid code point: n." for that one |
| Regex3Builder.Builder.Concat | src/main/java/com/github/hilcode/regex3/Regex.java:132-139 | `concat` appends each argument's program in argument order, reading the receiver's own program as it grows |
| Regex3Builder.Builder.Optional | src/main/java/com/github/hilcode/regex3/Regex.java:141-146 | `optional(E)` appends the `FORK` and `E`; when `E` is the receiver, its size is read before the `FORK` is added, so `E` includes the `FORK` |
| Regex3Builder.Builder.ZeroOrMore | src/main/java/com/github/hilcode/regex3/Regex.java:148-154 | `zeroOrMore(E)` appends the `FORK`, `E` and the `JUMP` back; when `E` is the receiver, the size is read again for the `JUMP` |
| Regex3Builder.Builder.FirstOf | src/main/java/com/github/hilcode/regex3/Regex.java:156-185 | `firstOf` appends every alternative guarded by a `FORK` to the next and a `JUMP` past the construct, with the last alternative unguarded |
| Regex3Builder.Builder.ProgramsOf | src/main/java/com/github/hilcode/regex3/Regex.java:158-166 | the alternatives' programs are read in argument order |
| Regex3Builder.Builder.Guard | src/main/java/com/github/hilcode/regex3/Regex.java:172-174 | one round of `firstOf` appends the `FORK` that skips the alternative, the alternative, and the `JUMP` |
| Regex3Builder.Builder.FirstJumpOffset | src/main/java/com/github/hilcode/regex3/Regex.java:161-166 | the first `JUMP` lands past the second alternative and every later one, counting their `FORK`s and `JUMP`s |
| Regex3Builder.Builder.Build | src/main/java/com/github/hilcode/regex3/Regex.java:187-191 | `build()` appends one `SUCCESS`, and a closed program becomes a well-formed regex |
| Regex3Builder.ConsAllDefined | src/main/java/com/github/hilcode/regex3/Regex.java:122-128 | a text is all defined exactly when its first code point is defined and the rest is |
| Regex3Builder.ConsDefinedPrefix | src/main/java/com/github/hilcode/regex3/Regex.java:122-128 | the defined prefix of a text stops at its first undefined code point |
| Regex3Builder.ConsSingles | src/main/java/com/github/hilcode/regex3/Regex.java:126 | the `SINGLE`s of a text are the first code point's `SINGLE`, then those of the rest |
| Regex3Builder.TextWalk | src/main/java/com/github/hilcode/regex3/Regex.java:122-128 | the walk of `text(s)` from an index adds the `SINGLE`s of the defined prefix of the rest |
| Regex3Builder.RoundsStep | src/main/java/com/github/hilcode/regex3/Regex.java:170-182 | one round of the `firstOf` loop appends the guarded alternative and lowers the `JUMP` offset by the next alternative's size |
| Regex3Builder.RoundsBuildAlternatives | src/main/java/com/github/hilcode/regex3/Regex.java:167-184 | started with the first `JUMP` offset, the rounds of the loop lay out all the alternatives |
| Regex3Builder.AlternativesUnfold | src/main/java/com/github/hilcode/regex3/Regex.java:170-183 | the construct from alternative k on is that alternative guarded, then the construct from alternative k+1 on |
| Regex3Builder.AlternativesSnoc | src/main/java/com/github/hilcode/regex3/Regex.java:161-166 | adding a last alternative lengthens the construct by its size plus two |
| Regex3Vm.ReadAt | src/main/java/com/github/hilcode/regex3/Regex.java:213-225 | `nextCodePoint` at the end of the text yields `EOF` and stays put; otherwise it yields `CodePoint.of` of the code point at the index and moves past exactly that code point's units |
| Regex3Vm.CodePointSourceString.constructor | src/main/java/com/github/hilcode/regex3/Regex.java:207-210 | a new source reads its text from index 0 |
| Regex3Vm.CodePointSourceString.NextCodePoint | src/main/java/com/github/hilcode/regex3/Regex.java:213-225 | `nextCodePoint()` yields what the text holds at the index and advances the index past it |
| Regex3Vm.Bound | src/main/java/com/github/hilcode/regex3/Regex.java:337-404 | every program counter a thread can be queued at lies below one bound, so each tick ends |
| Regex3Vm.Spawn | src/main/java/com/github/hilcode/regex3/Regex.java:381-401 | a `FORK` or `JUMP` target joins only the list being walked, and the best match is unchanged |
| Regex3Vm.Enqueue | src/main/java/com/github/hilcode/regex3/Regex.java:349-366 | a matched thread's successor joins only the next tick's list, and the best match is unchanged |
| Regex3Vm.Record | src/main/java/com/github/hilcode/regex3/Regex.java:372-375 | a `SUCCESS` thread keeps the best match or replaces it with the text read so far, never with a shorter one, and afterwards there is a match |
| Regex3Vm.FewerLeft | src/main/java/com/github/hilcode/regex3/Regex.java:334-405 | adding a new program counter to the bit set leaves fewer counters to add |
| Regex3Vm.ProgressTrans | src/main/java/com/github/hilcode/regex3/Regex.java:337-405 | progress within a tick is transitive |
| Regex3Vm.SpawnProgress | src/main/java/com/github/hilcode/regex3/Regex.java:381-401 | spawning a thread either does nothing or adds a counter to the bit set |
| Regex3Vm.EnqueueProgress | src/main/java/com/github/hilcode/regex3/Regex.java:349-366 | queueing a successor either does nothing or adds a counter to the bit set |
| Regex3Vm.StepProgress | src/main/java/com/github/hilcode/regex3/Regex.java:339-404 | running one thread only grows the walked list at its end, and either queues nothing or adds a counter to the bit set |
| Regex3Vm.ForkProgress | src/main/java/com/github/hilcode/regex3/Regex.java:378-392 | a `FORK` thread makes progress |
| Regex3Vm.JumpProgress | src/main/java/com/github/hilcode/regex3/Regex.java:393-403 | a `JUMP` thread makes progress |
| Regex3Vm.MatchProgress | src/main/java/com/github/hilcode/regex3/Regex.java:344-377 | `SINGLE`, `RANGE` and `SUCCESS` threads queue at most their successor |
| Regex3Vm.DrainAtEof | src/main/java/com/github/hilcode/regex3/Regex.java:337-405 | at `EOF` nothing is queued for a next tick, so the run stops after the end of the text |
| Regex3Vm.DrainLongest | src/main/java/com/github/hilcode/regex3/Regex.java:370-377 | within a tick the best match is either kept or becomes the text read so far |
| Regex3Vm.OutcomeIsPrefix | src/main/java/com/github/hilcode/regex3/Regex.java:327-413 | whatever `run` answers is a prefix of the text read from the start index |
| Regex3Vm.AppendOne | src/main/java/com/github/hilcode/regex3/Regex.java:383-384 | a list of distinct counters gains a new counter at its end and stays distinct |
| Regex3Vm.SpawnBookkept | src/main/java/com/github/hilcode/regex3/Regex.java:381-401 | spawning a thread keeps the bookkeeping: no counter queued twice, and the bit set holds exactly the queued counters |
| Regex3Vm.EnqueueBookkept | src/main/java/com/github/hilcode/regex3/Regex.java:349-366 | queueing a successor keeps the bookkeeping |
| Regex3Vm.StepBookkept | src/main/java/com/github/hilcode/regex3/Regex.java:339-404 | running one thread keeps the bookkeeping |
| Regex3Vm.DrainBookkept | src/main/java/com/github/hilcode/regex3/Regex.java:337-405 | the whole `for` loop keeps the bookkeeping |
| Regex3Vm.TickQueuesOnce | src/main/java/com/github/hilcode/regex3/Regex.java:334-405 | a tick queues every program counter at most once, in either list, and the bit set holds exactly the queued counters; the walked list keeps the threads the tick began with as its prefix |
| Regex3Vm.VirtualMachine.constructor | src/main/java/com/github/hilcode/regex3/Regex.java:265-268 | a machine runs the program it is given |
| Regex3Vm.VirtualMachine.AddThread | src/main/java/com/github/hilcode/regex3/Regex.java:349-353 | a target already in the bit set is skipped; otherwise it is added to the list and to the bit set |
| Regex3Vm.VirtualMachine.RunThread | src/main/java/com/github/hilcode/regex3/Regex.java:339-404 | the body of the `for` loop runs one thread as the tick's step function says, failing with `IndexOutOfBoundsException` on a counter outside the program or a negative target |
| Regex3Vm.VirtualMachine.Tick | src/main/java/com/github/hilcode/regex3/Regex.java:334-405 | the `for` loop runs every thread of the walked list, including those `FORK` and `JUMP` add along the way |
| Regex3Vm.VirtualMachine.Run | src/main/java/com/github/hilcode/regex3/Regex.java:327-413 | `run` ticks until no thread is left and answers the longest text read before a tick in which a `SUCCESS` thread ran, which is a prefix of the text |
| Regex3Vm.Regex.constructor | src/main/java/com/github/hilcode/regex3/Regex.java:230-237 | a regex holds the program `build()` produced |
| Regex3Vm.Regex.Match | src/main/java/com/github/hilcode/regex3/Regex.java:239-243 | `match(text)` runs a fresh machine over a fresh source, and any match is a prefix of the text |
| Regex3FixedVm.Start | src/main/java/com/github/hilcode/regex3/Regex.java:331-335 | corrected: a tick's starting threads are already in the set of the list they start, and the next tick's list and set are empty |
| Regex3FixedVm.SpawnFixed | src/main/java/com/github/hilcode/regex3/Regex.java:381-401 | corrected: a `FORK` or `JUMP` target joins the walked list unless that list's own set holds it, and the next tick's list is untouched |
| Regex3FixedVm.EnqueueFixed | src/main/java/com/github/hilcode/regex3/Regex.java:349-366 | corrected: a matched thread's successor joins the next tick's list unless that list's own set holds it, and the walked list is untouched |
| Regex3FixedVm.Branch | src/main/java/com/github/hilcode/regex3/Regex.java:378-403 | a `FORK` or `JUMP` thread leaves the next tick's list and the best match alone |
| Regex3FixedVm.SpawnGrows | src/main/java/com/github/hilcode/regex3/Regex.java:381-401 | corrected spawning either does nothing or adds a counter below the bound to the walked list's set |
| Regex3FixedVm.BranchGrows | src/main/java/com/github/hilcode/regex3/Regex.java:378-403 | a corrected `FORK` or `JUMP` makes progress in the same sense |
| Regex3FixedVm.GrowsTrans | src/main/java/com/github/hilcode/regex3/Regex.java:337-405 | progress within a corrected tick is transitive |
| Regex3FixedVm.FixedStepGrows | src/main/java/com/github/hilcode/regex3/Regex.java:339-404 | running one thread in the corrected tick makes progress, so the tick ends |
| Regex3FixedVm.SpawnWalked | src/main/java/com/github/hilcode/regex3/Regex.java:381-401 | corrected spawning keeps the walked list's set equal to the list's members |
| Regex3FixedVm.BranchWalked | src/main/java/com/github/hilcode/regex3/Regex.java:378-403 | a corrected `FORK` or `JUMP` puts both its successors in the walked list and keeps its set exact |
| Regex3FixedVm.BranchStepWalked | src/main/java/com/github/hilcode/regex3/Regex.java:378-403 | after a `FORK` or `JUMP` thread the walked prefix still meets the tick's invariant |
| Regex3FixedVm.SuccessStepWalked | src/main/java/com/github/hilcode/regex3/Regex.java:370-377 | after a `SUCCESS` thread the walked prefix meets the invariant, with the text read so far recorded |
| Regex3FixedVm.MatchStepWalked | src/main/java/com/github/hilcode/regex3/Regex.java:344-369 | after a `SINGLE` or `RANGE` thread the next tick's list holds exactly the successors of the consuming threads walked so far |
| Regex3FixedVm.WalkedQuietStep | src/main/java/com/github/hilcode/regex3/Regex.java:339-404 | a thread that does not reach `SUCCESS` and whose successors are in the walked list keeps the invariant |
| Regex3FixedVm.FixedStepWalked | src/main/java/com/github/hilcode/regex3/Regex.java:339-404 | every thread run by the corrected loop keeps the invariant |
| Regex3FixedVm.FixedDrainWalked | src/main/java/com/github/hilcode/regex3/Regex.java:337-405 | the corrected loop keeps the invariant to its end and only grows the walked list |
| Regex3FixedVm.TickComputes | src/main/java/com/github/hilcode/regex3/Regex.java:334-405 | a corrected tick walks a list that holds its starting threads and is closed under `FORK` and `JUMP`, hands on exactly one past each walked thread whose `SINGLE` or `RANGE` consumes the code point, and records the text read so far exactly when a walked thread is at `SUCCESS` |
| Regex3FixedVm.FixedDrainWithin | src/main/java/com/github/hilcode/regex3/Regex.java:337-405 | every thread the corrected loop walks lies in any closed set holding the walked list it starts from |
| Regex3FixedVm.FixedStepWithin | src/main/java/com/github/hilcode/regex3/Regex.java:339-404 | one corrected step stays within any closed set holding the walked list |
| Regex3FixedVm.TickLeast | src/main/java/com/github/hilcode/regex3/Regex.java:334-405 | the walked list is the least closed set holding the starting threads |
| Regex3FixedVm.FixedDrainOk | src/main/java/com/github/hilcode/regex3/Regex.java:337-405 | on a well-formed program the corrected loop never goes out of bounds |
| Regex3FixedVm.FixedStepOk | src/main/java/com/github/hilcode/regex3/Regex.java:339-404 | on a well-formed program a corrected step never goes out of bounds and keeps the walked list inside the program |
| Regex3FixedVm.TickOk | src/main/java/com/github/hilcode/regex3/Regex.java:334-405 | on a well-formed program a corrected tick succeeds and hands on only counters inside the program |
| Regex3FixedVm.TickAtEof | src/main/java/com/github/hilcode/regex3/Regex.java:334-405 | a corrected tick at `EOF` hands nothing on |
| Regex3FixedVm.FixedOutcomeOk | src/main/java/com/github/hilcode/regex3/Regex.java:327-413 | on a well-formed program the corrected `run` fails only where `CodePoint.of` refuses a code point of the text |
| Regex3FixedVm.ReadDefined | src/main/java/com/github/hilcode/regex3/Regex.java:213-225 | a text whose code points are all defined reads without error, and what remains is still all defined |
| Regex3FixedVm.OptionalThenSame | src/main/java/com/github/hilcode/regex3/Regex.java:141-146 | the program `a?a`: an optional `a`, an `a`, then `SUCCESS`, which is well formed |
| Regex3FixedVm.RangeOfA | src/main/java/com/github/hilcode/regex3/Regex.java:114-118 | a well-formed program of one `RANGE` holding only `a`, then `SUCCESS` |
| Regex3FixedVm.OutcomeStep | src/main/java/com/github/hilcode/regex3/Regex.java:332-411 | one pass of the `while` loop: the run's answer is the answer from the next tick's threads |
| Regex3FixedVm.AsWrittenFirstTick | src/main/java/com/github/hilcode/regex3/Regex.java:337-405 | as written, the first tick of `a?a` on `a` queues only program counter 3: the thread at 1 would queue 2, but the `FORK` already set bit 2 in the shared bit set |
| Regex3FixedVm.AsWrittenSecondTick | src/main/java/com/github/hilcode/regex3/Regex.java:337-405 | as written, the second tick of `a?a` runs `SUCCESS` with "a" read |
| Regex3FixedVm.AsWrittenRunFirst | src/main/java/com/github/hilcode/regex3/Regex.java:332-411 | as written, after the first tick of `a?a` on "aa" only the thread at `SUCCESS` is left |
| Regex3FixedVm.AsWrittenRunSecond | src/main/java/com/github/hilcode/regex3/Regex.java:332-411 | as written, the run of `a?a` from there answers "a" |
| Regex3FixedVm.AsWrittenRunOf | src/main/java/com/github/hilcode/regex3/Regex.java:327-413 | as written, `run` of `a?a` on "aa" answers "a" |
| Regex3FixedVm.AsWrittenDropsThread | src/main/java/com/github/hilcode/regex3/Regex.java:327-413 | as written, `a?a` matches only "a" of "aa", because the shared bit set drops the thread that would read the second `a` |
| Regex3FixedVm.FixedFirstTick | src/main/java/com/github/hilcode/regex3/Regex.java:337-405 | corrected, the first tick of `a?a` on `a` hands on both program counters 2 and 3 |
| Regex3FixedVm.FixedSecondTick | src/main/java/com/github/hilcode/regex3/Regex.java:337-405 | corrected, the second tick reads the second `a` and records "a" |
| Regex3FixedVm.FixedLastTick | src/main/java/com/github/hilcode/regex3/Regex.java:337-405 | corrected, the tick at `EOF` records "aa" and hands nothing on |
| Regex3FixedVm.FixedKeepsThread | src/main/java/com/github/hilcode/regex3/Regex.java:327-413 | corrected, `a?a` matches the whole of "aa" |
| Regex3FixedVm.AsWrittenRangeAtEnd | src/main/java/com/github/hilcode/regex3/Regex.java:357-366 | as written, a `RANGE` thread alive at the end of the input fails the run with `IndexOutOfBoundsException`, since `EOF` has value -1 |
| Regex3FixedVm.FixedRangeAtEnd | src/main/java/com/github/hilcode/regex3/Regex.java:357-366 | corrected, a `RANGE` thread at the end of the input does not match and the run answers no match |
| Regex3FixedVm.EofLoop | src/main/java/com/github/hilcode/regex3/Regex.java:103-107 | `zeroOrMore(codePoint(CodePoint.EOF)).build()` is a well-formed program that holds `Single(EOF)` |
| Regex3FixedVm.AsWrittenEofFirstTick | src/main/java/com/github/hilcode/regex3/Regex.java:343-354 | as written, the first tick on "" records "" and queues only the `JUMP`, because `SINGLE(EOF)` matches the `EOF` read |
| Regex3FixedVm.AsWrittenEofTick | src/main/java/com/github/hilcode/regex3/Regex.java:327-413 | as written, a tick at the end of the input from the `JUMP` goes back through the `FORK` and queues the `JUMP` again |
| Regex3FixedVm.AsWrittenEofRepeats | src/main/java/com/github/hilcode/regex3/Regex.java:213-225 | as written, once the text is used up every pass of the `while` loop reads `EOF` again and ends in the same index, threads and matched text |
| Regex3FixedVm.AsWrittenEofNeverEnds | src/main/java/com/github/hilcode/regex3/Regex.java:327-413 | as written, `zeroOrMore(codePoint(CodePoint.EOF))` on "" still has a thread after any number of passes, so `run` never returns |
| Regex3FixedVm.FixedEofLoopEnds | src/main/java/com/github/hilcode/regex3/Regex.java:343-354 | corrected, `SINGLE(EOF)` does not match the end of the input, so the same run ends with the empty match |
| Compiler.HexDigitValue | src/main/java/com/github/hilcode/regex/internal/impl/DefaultRegularExpression.java:171-172 | a hexadecimal digit has a value below 16 |
| Compiler.Pow16 | src/main/java/com/github/hilcode/regex/internal/impl/DefaultRegularExpression.java:171-172 | a power of 16 is at least one |
| Compiler.HexValueBound | src/main/java/com/github/hilcode/regex/internal/impl/DefaultRegularExpression.java:171-172 | `Integer.parseInt(hex, 16)` of n digits is below 16 to the n, so four digits give a value below 0x10000 |
| Compiler.TokenCodePoint | src/main/java/com/github/hilcode/regex/internal/impl/DefaultRegularExpression.java:159-179 | a `\uXXXX` token stands for a code point below 0x10000 |
| Compiler.ParseSequence | src/main/java/com/github/hilcode/regex/internal/impl/DefaultRegularExpression.java:148-249 | `matchExpression` at a level stops at the end of the tokens, or at a `)` and only when the level is above zero |
| Compiler.ParseStep | src/main/java/com/github/hilcode/regex/internal/impl/DefaultRegularExpression.java:159-207 | a literal or a quantifier with an operand is one step of the loop, after which the loop goes on at the next token |
| Compiler.ParseExit | src/main/java/com/github/hilcode/regex/internal/impl/DefaultRegularExpression.java:154-249 | the loop ends at the end of the tokens; a `)` ends a nested level and fails at level zero with "Invalid pattern: too many ')'."; a quantifier with nothing before it fails, as `pollLast` returns `null` |
| Compiler.ParseGroup | src/main/java/com/github/hilcode/regex/internal/impl/DefaultRegularExpression.java:208-222 | a `(` compiles the inner level from the next token and fails with "Expected a ')'." unless the inner level stopped at a `)` |
| Compiler.HoldsAppend | src/main/java/com/github/hilcode/regex/internal/impl/DefaultRegularExpression.java:159-179 | pushing a sub-expression's code keeps the deque in step with the expression list |
| Compiler.HoldsReplaceLast | src/main/java/com/github/hilcode/regex/internal/impl/DefaultRegularExpression.java:180-207 | replacing the last code list keeps the deque in step with the expression list |
| Compiler.Concatenate | src/main/java/com/github/hilcode/regex/internal/impl/DefaultRegularExpression.java:229-235 | the loop over the deque appends every list, in order |
| Compiler.FlattenHolds | src/main/java/com/github/hilcode/regex/internal/impl/DefaultRegularExpression.java:241-247 | the concatenated deque is the code of the whole expression list |
| Compiler.PushExpression | src/main/java/com/github/hilcode/regex/internal/impl/DefaultRegularExpression.java:159-207 | a literal token pushes its code, a quantifier rewraps the last list, and a quantifier on an empty deque fails |
| Compiler.PushLiteral | src/main/java/com/github/hilcode/regex/internal/impl/DefaultRegularExpression.java:159-179 | a `CODE_POINT` or `UNICODE_CODE_POINT` token pushes one `BasicCodePoint` of its code point |
| Compiler.PushQuantifier | src/main/java/com/github/hilcode/regex/internal/impl/DefaultRegularExpression.java:180-207 | `?`, `*` and `+` wrap the last list as an optional, a loop with its backward jump, or a repeat, and fail on an empty deque |
| Compiler.MatchExpression | src/main/java/com/github/hilcode/regex/internal/impl/DefaultRegularExpression.java:148-249 | `matchExpression` returns where its level stopped and the code of everything it compiled, or the first failure, exactly as the expression tree says |
| Compiler.PushGroup | src/main/java/com/github/hilcode/regex/internal/impl/DefaultRegularExpression.java:208-222 | a group pushes the inner level's code and resumes at the `)`, or fails as the tree says |
| Compiler.PushToken | src/main/java/com/github/hilcode/regex/internal/impl/DefaultRegularExpression.java:156-239 | each token other than `)` is one step of the tree's definition |
| Compiler.Reduce | src/main/java/com/github/hilcode/regex/internal/impl/DefaultRegularExpression.java:223-248 | at a `)` or at the end the deque collapses into one list, the code of its expression list |
| Compiler.FitsInMeans | src/main/java/com/github/hilcode/regex/internal/impl/DefaultRegularExpression.java:180-207 | an instruction fits its block exactly when every successor lies in the block or just past it |
| Compiler.Embed | src/main/java/com/github/hilcode/regex/internal/impl/DefaultRegularExpression.java:180-207 | a block of code placed in a program keeps its successors within the block |
| Compiler.EmitShape | src/main/java/com/github/hilcode/regex/internal/impl/DefaultRegularExpression.java:159-207 | every successor of the code of one sub-expression lies within that code or just past it, and it has no `SUCCESS` |
| Compiler.OptionalClosed | src/main/java/com/github/hilcode/regex/internal/impl/DefaultRegularExpression.java:180-187 | `?` keeps the code closed: the `FORK` skips exactly past the operand |
| Compiler.ZeroOrMoreClosed | src/main/java/com/github/hilcode/regex/internal/impl/DefaultRegularExpression.java:189-197 | `*` keeps the code closed: the `FORK` skips past the `JUMP`, which returns to the `FORK` |
| Compiler.OneOrMoreClosed | src/main/java/com/github/hilcode/regex/internal/impl/DefaultRegularExpression.java:199-206 | `+` keeps the code closed: the `FORK` returns to the start of the operand |
| Compiler.EmitAllShape | src/main/java/com/github/hilcode/regex/internal/impl/DefaultRegularExpression.java:241-247 | the concatenated code of a sequence is closed and has no `SUCCESS` |
| Compiler.TotalWeightSplit | src/main/java/com/github/hilcode/regex/internal/impl/DefaultRegularExpression.java:154-239 | the code size of a run of tokens adds up over its parts |
| Compiler.TotalWeightOne | src/main/java/com/github/hilcode/regex/internal/impl/DefaultRegularExpression.java:154-239 | the code size of one token is its weight |
| Compiler.ParseWeight | src/main/java/com/github/hilcode/regex/internal/impl/DefaultRegularExpression.java:148-249 | the code a level compiles grows by exactly the weight of the tokens it consumed |
| Compiler.ParseWeightGroup | src/main/java/com/github/hilcode/regex/internal/impl/DefaultRegularExpression.java:208-222 | a group adds the weight of its tokens, the parentheses weighing nothing |
| Compiler.GroupWeightSum | src/main/java/com/github/hilcode/regex/internal/impl/DefaultRegularExpression.java:208-222 | the group's inner code and the rest of the level add up to the weight of the tokens |
| Compiler.ParseGroupOk | src/main/java/com/github/hilcode/regex/internal/impl/DefaultRegularExpression.java:208-222 | a group that compiles stopped at its `)` and the level goes on after it |
| Compiler.EmitAllGroup | src/main/java/com/github/hilcode/regex/internal/impl/DefaultRegularExpression.java:212 | a group's code is its items' code appended |
| Compiler.ParseWeightStep | src/main/java/com/github/hilcode/regex/internal/impl/DefaultRegularExpression.java:159-207 | a literal or quantifier step adds its weight |
| Compiler.ApplyWeight | src/main/java/com/github/hilcode/regex/internal/impl/DefaultRegularExpression.java:159-207 | a literal adds one instruction, `?` and `+` one, `*` two |
| Compiler.GroupWeight | src/main/java/com/github/hilcode/regex/internal/impl/DefaultRegularExpression.java:208-222 | the weight from a `(` splits at its `)` |
| Compiler.CompiledShape | src/main/java/com/github/hilcode/regex/internal/impl/DefaultRegularExpression.java:123-130 | the compiled basic program is as long as the tokens' weight plus one, ends in its only `SUCCESS`, and every successor of every instruction is an index of it |
| LinkerGraph.InitialInv | src/main/java/com/github/hilcode/regex/internal/impl/DefaultBasicProgram.java:196-217 | the pairs just after classification hold only what each instruction reaches, and every simple walk to a matcher ends in the matcher set or passes through a pending ephemeral |
| LinkerGraph.WalkJoin | src/main/java/com/github/hilcode/regex/internal/impl/DefaultBasicProgram.java:233-238 | a walk to an ephemeral instruction joined with a walk from it is a walk |
| LinkerGraph.SimpleSuffix | src/main/java/com/github/hilcode/regex/internal/impl/DefaultBasicProgram.java:233-238 | the tail of a simple walk from an inner node is a simple walk |
| LinkerGraph.ResolveStep | src/main/java/com/github/hilcode/regex/internal/impl/DefaultBasicProgram.java:231-238 | resolving one pending ephemeral keeps the invariant |
| LinkerGraph.ResolveShape | src/main/java/com/github/hilcode/regex/internal/impl/DefaultBasicProgram.java:231-238 | resolving keeps matchers in the matcher set and ephemerals in the ephemeral set |
| LinkerGraph.ResolveSound | src/main/java/com/github/hilcode/regex/internal/impl/DefaultBasicProgram.java:233-238 | what a pair takes over from another pair is reachable from it |
| LinkerGraph.ResolveComplete | src/main/java/com/github/hilcode/regex/internal/impl/DefaultBasicProgram.java:231-238 | after clearing the pending index and taking over that pair's sets, every simple walk is still covered |
| LinkerGraph.WalkSuffix | src/main/java/com/github/hilcode/regex/internal/impl/DefaultBasicProgram.java:233-238 | the part of a walk after an inner node is a walk |
| LinkerGraph.WalkCut | src/main/java/com/github/hilcode/regex/internal/impl/DefaultBasicProgram.java:233 | cutting out a loop between two visits of one inner node leaves a walk |
| LinkerGraph.Shorten | src/main/java/com/github/hilcode/regex/internal/impl/DefaultBasicProgram.java:218-242 | every walk to a matcher can be shortened to a simple walk between the same ends |
| LinkerGraph.Settled | src/main/java/com/github/hilcode/regex/internal/impl/DefaultBasicProgram.java:218-246 | when no pair has a pending ephemeral, every matcher set is exactly the set of matchers its instruction reaches through ephemerals |
| LinkerGraph.SuccessReachesNothing | src/main/java/com/github/hilcode/regex/internal/impl/DefaultBasicProgram.java:202 | a `SUCCESS` instruction continues nowhere |
| LinkerGraph.WalkFirstStep | src/main/java/com/github/hilcode/regex/internal/impl/DefaultBasicProgram.java:202 | a walk's first step is a successor of its first instruction |
| Linker.AllReachable | src/main/java/com/github/hilcode/regex/internal/impl/DefaultBasicProgram.java:243-246 | the list of resolved sets has one entry per instruction, the matchers it reaches |
| Linker.OfKindAdd | src/main/java/com/github/hilcode/regex/internal/impl/DefaultBasicProgram.java:204-215 | sorting one more successor adds it to exactly one of the two sets |
| Linker.ClassifySuccessors | src/main/java/com/github/hilcode/regex/internal/impl/DefaultBasicProgram.java:202-215 | the successors of one instruction split into matchers and ephemerals; a successor outside the list throws `IndexOutOfBoundsException` |
| Linker.ClassifyStep | src/main/java/com/github/hilcode/regex/internal/impl/DefaultBasicProgram.java:207-214 | one successor goes into the ephemeral set or the matcher set by its kind |
| Linker.MoveMember | src/main/java/com/github/hilcode/regex/internal/impl/DefaultBasicProgram.java:204-206 | the `BitSetIterator` visits each successor once |
| Linker.Classify | src/main/java/com/github/hilcode/regex/internal/impl/DefaultBasicProgram.java:196-217 | the first loop builds one pair per instruction holding its matcher and ephemeral successors, and fails exactly when some successor lies outside the list |
| Linker.ResolvePair | src/main/java/com/github/hilcode/regex/internal/impl/DefaultBasicProgram.java:224-240 | resolving one pair keeps the invariant and leaves the other pairs' pending sets alone |
| Linker.Pass | src/main/java/com/github/hilcode/regex/internal/impl/DefaultBasicProgram.java:221-241 | one pass keeps the invariant, and when nothing changed no pair has pending ephemerals |
| Linker.Propagate | src/main/java/com/github/hilcode/regex/internal/impl/DefaultBasicProgram.java:218-246 | the `while (somethingChanged)` loop, within the pass budget, ends with every instruction's matcher set equal to the matchers it reaches |
| Linker.InitNextProgramCounters | src/main/java/com/github/hilcode/regex/internal/impl/DefaultBasicProgram.java:194-247 | `initNextProgramCounters` yields, for every instruction, exactly the matchers it reaches through forks and jumps, or fails on a successor outside the list |
| Linker.DroppedBelow | src/main/java/com/github/hilcode/regex/internal/impl/DefaultBasicProgram.java:116-125 | fewer slots are dropped below k than k, when k is positive |
| Linker.IndexMap | src/main/java/com/github/hilcode/regex/internal/impl/DefaultBasicProgram.java:116-125 | `indexMap[i]` is i minus the number of dropped slots up to and including i |
| Linker.DroppedBetween | src/main/java/com/github/hilcode/regex/internal/impl/DefaultBasicProgram.java:116-125 | the dropped count only grows, by at most the distance, and by less across a kept slot |
| Linker.IndexMapIncreasing | src/main/java/com/github/hilcode/regex/internal/impl/DefaultBasicProgram.java:116-125 | kept slots get strictly increasing new indices |
| Linker.LinkedBelowFacts | src/main/java/com/github/hilcode/regex/internal/impl/DefaultBasicProgram.java:126-135 | the linked list below k has one instruction per kept slot, at the slot's new index |
| Linker.LinkedShape | src/main/java/com/github/hilcode/regex/internal/impl/DefaultBasicProgram.java:84-137 | `toProgram` keeps the first slot and every matcher, drops the other ephemerals, puts each kept slot's instruction at its new index with its successors renumbered, and each has as many successors as its instruction reaches |
| Linker.RawTargets | src/main/java/com/github/hilcode/regex/internal/impl/DefaultBasicProgram.java:92-115 | before renumbering a kept instruction's successors are what it reaches, and only the first may be a `START` |
| Linker.LinkedWellLinked | src/main/java/com/github/hilcode/regex/internal/impl/DefaultBasicProgram.java:84-137 | the linked program is well linked: only its first instruction may be a `START`, and every successor is an index of a non-`START` instruction |
| Linker.LinkedNotStart | src/main/java/com/github/hilcode/regex/internal/impl/DefaultBasicProgram.java:106-115 | only the first linked instruction may be a `START` |
| Linker.LinkedTarget | src/main/java/com/github/hilcode/regex/internal/impl/DefaultBasicProgram.java:126-135 | a renumbered successor is the index of a non-`START` instruction |
| Linker.DefaultBasicProgram.constructor | src/main/java/com/github/hilcode/regex/internal/impl/DefaultBasicProgram.java:64-73 | a new basic program holds its instructions and has not resolved successors yet |
| Linker.DefaultBasicProgram.GetNextProgramCounters | src/main/java/com/github/hilcode/regex/internal/impl/DefaultBasicProgram.java:139-147 | `getNextProgramCounters` resolves all sets on the first query and then answers from the cache: the matchers instruction pc reaches. It throws `IndexOutOfBoundsException` on a successor outside the list, and it also fails with "Program counters did not settle." when the pass budget runs out, which the source never reports |
| Linker.DefaultBasicProgram.ToProgram | src/main/java/com/github/hilcode/regex/internal/impl/DefaultBasicProgram.java:84-137 | `toProgram` returns the linked program, or the failure of resolving the successor sets: `IndexOutOfBoundsException`, or "Program counters did not settle." when the pass budget runs out, which the source never reports |
| VirtualMachine.Thread.Consume | src/main/java/com/github/hilcode/regex/internal/impl/DefaultThread.java:46-50 | `match(pc, cp)` gives a thread at `pc` whose text is this thread's text followed by exactly `cp` |
| VirtualMachine.Thread.Jump | src/main/java/com/github/hilcode/regex/internal/impl/DefaultThread.java:52-56 | `jump(pc)` gives a thread at `pc` with the same matched text |
| VirtualMachine.ConsumeText | src/main/java/com/github/hilcode/regex/internal/impl/DefaultThread.java:46-50 | written out as a Java string, the text after `match(pc, cp)` is the old string followed by `new String(toChars(cp))` |
| VirtualMachine.MatchResult.MatchedText | src/main/java/com/github/hilcode/regex/internal/Match.java:38-50 | `getMatchedText()` succeeds exactly when `matches()` holds and gives the matched text; a no-match fails with "No matched text." |
| VirtualMachine.AddedFacts | src/main/java/com/github/hilcode/regex/internal/impl/DefaultVirtualMachineState.java:93-111 | offering a thread appends it exactly when no thread at its program counter is queued (`equals` compares program counters only), so the list never holds two threads at one counter |
| VirtualMachine.AddedAllFacts | src/main/java/com/github/hilcode/regex/internal/impl/DefaultVirtualMachineState.java:93-111 | offering several threads keeps the list free of duplicate counters and adds only offered threads |
| VirtualMachine.DefaultVirtualMachineState.constructor | src/main/java/com/github/hilcode/regex/internal/impl/DefaultVirtualMachineState.java:51-66 | a new state starts with the thread (0, "") or, when the first instruction is a `START`, with the threads that `START` jumps to, and no next-tick threads |
| VirtualMachine.DefaultVirtualMachineState.PrepareForNextTick | src/main/java/com/github/hilcode/regex/internal/impl/DefaultVirtualMachineState.java:86-91 | the next tick's threads become current and the next list is empty |
| VirtualMachine.DefaultVirtualMachineState.Jump | src/main/java/com/github/hilcode/regex/internal/impl/DefaultVirtualMachineState.java:93-101 | `jump` offers the thread moved to the counter, with its text unchanged, to the next tick only |
| VirtualMachine.DefaultVirtualMachineState.Match | src/main/java/com/github/hilcode/regex/internal/impl/DefaultVirtualMachineState.java:103-111 | `match` offers the thread moved to the counter, with the code point appended to its text, to the next tick only |
| VirtualMachine.JumpsSnoc | src/main/java/com/github/hilcode/regex/internal/impl/DefaultInstructionStart.java:49-58 | one more successor adds one more jump at the end |
| VirtualMachine.SpawnedSnoc | src/main/java/com/github/hilcode/regex/internal/impl/DefaultInstructionCodePoint.java:54-63 | one more successor adds one more match at the end |
| VirtualMachine.AddedAllSnoc | src/main/java/com/github/hilcode/regex/internal/impl/DefaultVirtualMachineState.java:93-111 | offering one more thread is one more `jump` or `match` |
| VirtualMachine.AscendingStep | src/main/java/com/github/hilcode/regex/internal/impl/DefaultInstructionStart.java:49-58 | `nextSetBit` visits the successors in ascending order |
| VirtualMachine.ExecuteStart | src/main/java/com/github/hilcode/regex/internal/impl/DefaultInstructionStart.java:46-60 | a `START` jumps to every successor in ascending order and leaves the current threads alone |
| VirtualMachine.ExecuteCodePoint | src/main/java/com/github/hilcode/regex/internal/impl/DefaultInstructionCodePoint.java:49-66 | a `CODE POINT` equal to the next code point matches into every successor in ascending order; otherwise it hands on nothing |
| VirtualMachine.Execute | src/main/java/com/github/hilcode/regex/internal/impl/DefaultInstructionSuccess.java:49-53 | `execute` answers true exactly for `SUCCESS`, and hands the state exactly the threads the instruction's kind says |
| VirtualMachine.Match | src/main/java/com/github/hilcode/regex/internal/impl/DefaultVirtualMachine.java:56-92 | `match` runs one tick per code point, the threads in list order, and returns the first thread that reaches `SUCCESS`, the input when no thread is left, or the stream's failure |
| VirtualMachine.TickFiresFirst | src/main/java/com/github/hilcode/regex/internal/impl/DefaultVirtualMachine.java:68-78 | a tick that fires, fires for the first thread in list order that sits on `SUCCESS` |
| VirtualMachine.ProgramCountersSize | src/main/java/com/github/hilcode/regex/internal/impl/DefaultThread.java:77-90 | a list free of duplicate counters has as many counters as threads |
| VirtualMachine.Range | src/main/java/com/github/hilcode/regex/internal/impl/DefaultVirtualMachine.java:68 | the counters below n are exactly n |
| VirtualMachine.DistinctBound | src/main/java/com/github/hilcode/regex/internal/impl/DefaultVirtualMachine.java:79-82 | a list free of duplicate counters inside a program holds no more threads than the program has instructions, which bounds `maxThreads` |
| VirtualMachine.HandedCarry | src/main/java/com/github/hilcode/regex/internal/impl/DefaultInstructionCodePoint.java:49-66 | in a well-linked program what an instruction hands on sits on a non-`START` instruction with the code point appended to its text |
| VirtualMachine.TickCarry | src/main/java/com/github/hilcode/regex/internal/impl/DefaultVirtualMachine.java:66-84 | a tick of a well-linked program never fails: it fires with the text matched so far, or hands on distinct threads that all matched one more code point |
| VirtualMachine.RunPrefix | src/main/java/com/github/hilcode/regex/internal/impl/DefaultVirtualMachine.java:64-86 | from any position, a match is a prefix of the input with the rest unread, a no-match returns the input, and the only failures are the stream's |
| VirtualMachine.MatchPrefix | src/main/java/com/github/hilcode/regex/internal/impl/DefaultVirtualMachine.java:56-92 | `match` on a well-linked program reports a prefix of the input and the unread rest, or the input unchanged, and fails only as the stream does |
| VirtualMachine.EndOfInputFails | src/main/java/com/github/hilcode/regex/internal/impl/DefaultVirtualMachine.java:64-86 | the program of pattern `a` run on "a" fails with "Empty stream.": the thread that reached `SUCCESS` waits for a tick the stream cannot start |
| VirtualMachine.SingleCodePointRun | src/main/java/com/github/hilcode/regex/internal/impl/DefaultVirtualMachine.java:64-86 | the same holds for the one-code-point pattern of any code point |
| VirtualMachine.FirstTickOf | src/main/java/com/github/hilcode/regex/internal/impl/DefaultVirtualMachine.java:66-84 | the first tick of that run hands on one thread at `SUCCESS` holding the code point |
| VirtualMachine.MatchedOnce | src/main/java/com/github/hilcode/regex/internal/impl/DefaultInstructionCodePoint.java:49-66 | a `CODE POINT` with one successor, given its own code point, hands on one match |
| VirtualMachine.AddedToEmpty | src/main/java/com/github/hilcode/regex/internal/impl/DefaultVirtualMachineState.java:93-111 | one thread offered to an empty list is the list |
| Tokens.TypeNamed | src/main/java/com/github/hilcode/regex/internal/stream/impl/DefaultToken.java:62-66 | the type read back from a name is the type whose `%s` rendering is that name |
| Tokens.Codes | src/main/java/com/github/hilcode/regex/internal/stream/impl/DefaultToken.java:62-66 | a literal string gives one code point per character, in order |
| Tokens.ToString | src/main/java/com/github/hilcode/regex/internal/stream/impl/DefaultToken.java:62-66 | `toString()` is `[Token type=` then the type's name, ` text='`, the text and `']` |
| Tokens.FirstSpace | src/main/java/com/github/hilcode/regex/internal/stream/impl/DefaultToken.java:62-66 | the position of the first space, with no space before it |
| Tokens.TypeNamedName | src/main/java/com/github/hilcode/regex/internal/stream/impl/DefaultToken.java:62-66 | every type's name reads back as that type |
| Tokens.NoSpaceInName | src/main/java/com/github/hilcode/regex/internal/stream/impl/DefaultToken.java:62-66 | no type's name holds a space |
| Tokens.FirstSpaceAfter | src/main/java/com/github/hilcode/regex/internal/stream/impl/DefaultToken.java:62-66 | a name without spaces followed by a space ends at that space |
| Tokens.ParseToString | src/main/java/com/github/hilcode/regex/internal/stream/impl/DefaultToken.java:62-66 | the rendering determines the token: reading `toString()` back gives the token's type and text |
| Tokens.ParseRendering | src/main/java/com/github/hilcode/regex/internal/stream/impl/DefaultToken.java:62-66 | any rendering of a name without spaces that names a type reads back as that type and the text |
| Tokens.Pieces | src/main/java/com/github/hilcode/regex/internal/stream/impl/DefaultToken.java:65 | the parts of a rendering are found at their offsets |
| Tokenizer.MatchSingleCodePoint | src/main/java/com/github/hilcode/regex/internal/stream/impl/DefaultTokenizer.java:234-246 | `matchSingleCodePoint` matches exactly when the head is the code point, whose text becomes the token and whose tail is left; otherwise the stream is returned unread |
| Tokenizer.MatchHexDigits | src/main/java/com/github/hilcode/regex/internal/stream/impl/DefaultTokenizer.java:174-215 | after `\u`, four hex digits make a `UNICODE_CODE_POINT` token; anything else throws "Invalid pattern." |
| Tokenizer.MatchUnicodeCodePoint | src/main/java/com/github/hilcode/regex/internal/stream/impl/DefaultTokenizer.java:163-219 | `matchUnicodeCodePoint` fails exactly on a `\u` without four hex digits after it, matches a well-formed escape, and returns the stream unread unless it starts with `\u` |
| Tokenizer.MatchAny | src/main/java/com/github/hilcode/regex/internal/stream/impl/DefaultTokenizer.java:221-232 | `matchAny` turns the head into a `CODE_POINT` token and leaves the tail, and does not match an empty stream |
| Tokenizer.NextToken | src/main/java/com/github/hilcode/regex/internal/stream/impl/DefaultTokenizer.java:85-119 | the rules tried in order `?`, `*`, `+`, `(`, `)`, `\uXXXX`, any, always match a non-empty stream, consuming a non-empty prefix, and fail only on a bad escape or corrupt UTF-16 |
| Tokenizer.Tokenize | src/main/java/com/github/hilcode/regex/internal/stream/impl/DefaultTokenizer.java:75-131 | `tokenize` produces the tokens of the decoded pattern, read until the stream is empty |
| Tokenizer.TokenizeStep | src/main/java/com/github/hilcode/regex/internal/stream/impl/DefaultTokenizer.java:120-128 | one pass of the loop moves the matched token to the result and continues from the unread stream |
| Tokenizer.TokenizeRoundTrip | src/main/java/com/github/hilcode/regex/internal/stream/impl/DefaultTokenizer.java:75-131 | the token texts concatenate back to the pattern, there are no more tokens than code points, and every token is well formed |
| Tokenizer.TokenizeCons | src/main/java/com/github/hilcode/regex/internal/stream/impl/DefaultTokenizer.java:82-129 | a non-empty pattern that tokenizes is its first token followed by the tokens of the rest |
| Tokenizer.TextsCons | src/main/java/com/github/hilcode/regex/internal/stream/impl/DefaultTokenizer.java:122 | the texts of a token list are the first text then the rest |
| Tokenizer.BadEscapeShift | src/main/java/com/github/hilcode/regex/internal/stream/impl/DefaultTokenizer.java:82-129 | a bad escape after the consumed prefix is a bad escape of the rest |
| Tokenizer.NoBadEscapeInToken | src/main/java/com/github/hilcode/regex/internal/stream/impl/DefaultTokenizer.java:163-219 | no bad escape starts inside a token |
| Tokenizer.TokenizeSucceedsIff | src/main/java/com/github/hilcode/regex/internal/stream/impl/DefaultTokenizer.java:75-131 | tokenizing fails exactly when the pattern is corrupt UTF-16 or holds a `\u` without four hex digits, and then, when not corrupt, with "Invalid pattern." |
| CodePointStreams.IsEmptyOf | src/main/java/com/github/hilcode/regex/internal/stream/impl/DefaultCodePointStream.java:91-95 | `isEmpty()` is true exactly at the end of the input, and fails only when the stream's next units are corrupt |
| CodePointStreams.HeadOf | src/main/java/com/github/hilcode/regex/internal/stream/impl/DefaultCodePointStream.java:97-105 | `head()` gives the next code point when there is one; at the end it throws "Empty stream." |
| CodePointStreams.TailOf | src/main/java/com/github/hilcode/regex/internal/stream/impl/DefaultCodePointStream.java:107-121 | `tail()` is the rest after one code point, or the stream itself at the end |
| CodePointStreams.DecodeNextIsFirst | src/main/java/com/github/hilcode/regex/internal/stream/impl/DefaultCodePointReader.java:50-84 | one `readCodePointOrEof` is the first element of the whole decoding and leaves the decoding of the rest |
| CodePointStreams.ReadCodeUnitOrEof | src/main/java/com/github/hilcode/regex/internal/stream/impl/CodeUnitReaderFromCharSequence.java:39-52 | either code-unit reader yields the next unit of the tape it stands for |
| CodePointStreams.DefaultCodePointReader.constructor | src/main/java/com/github/hilcode/regex/internal/stream/impl/DefaultCodePointReader.java:44-48 | a reader pulls from the code-unit reader it is given |
| CodePointStreams.DefaultCodePointReader.ReadCodePointOrEof | src/main/java/com/github/hilcode/regex/internal/stream/impl/DefaultCodePointReader.java:50-84 | `readCodePointOrEof` yields EOF at the end, a non-surrogate unit as itself, a high surrogate followed by a low one as their code point, and "Corrupt stream." for any other surrogate |
| CodePointStreams.DefaultCodePointStream.constructor | src/main/java/com/github/hilcode/regex/internal/stream/impl/DefaultCodePointStream.java:84-89 | a new stream has an unread head and no tail yet |
| CodePointStreams.DefaultCodePointStream.GetHeadCodePoint | src/main/java/com/github/hilcode/regex/internal/stream/impl/DefaultCodePointStream.java:123-136 | the head is read from the shared reader only the first time and is the first code point the stream stands for |
| CodePointStreams.DefaultCodePointStream.ReadHead | src/main/java/com/github/hilcode/regex/internal/stream/impl/DefaultCodePointStream.java:129-132 | the first read of a stream decodes exactly its first code point |
| CodePointStreams.DefaultCodePointStream.IsEmpty | src/main/java/com/github/hilcode/regex/internal/stream/impl/DefaultCodePointStream.java:91-95 | `isEmpty()` reads the head if needed and answers as the stream's code points say |
| CodePointStreams.DefaultCodePointStream.Head | src/main/java/com/github/hilcode/regex/internal/stream/impl/DefaultCodePointStream.java:97-105 | `head()` answers as the stream's code points say |
| CodePointStreams.DefaultCodePointStream.Tail | src/main/java/com/github/hilcode/regex/internal/stream/impl/DefaultCodePointStream.java:107-121 | `tail()` is memoised: the stream itself at the end, otherwise a stream over the same reader standing for the rest, and the same object on every later call |
| CodePointStreams.DefaultCodePointStream.SetSelfTail | src/main/java/com/github/hilcode/regex/internal/stream/impl/DefaultCodePointStream.java:116 | at the end of the input the tail is the stream itself |
| CodePointStreams.DefaultCodePointStream.AppendTail | src/main/java/com/github/hilcode/regex/internal/stream/impl/DefaultCodePointStream.java:116 | after a code point the tail is a new stream over the same reader, standing for the rest |
| CodePointStreams.TailIsValid | src/main/java/com/github/hilcode/regex/internal/stream/impl/DefaultCodePointStream.java:107-121 | a cached tail always stands for the rest of its stream |
| CodePointStreams.NewCodePointStreamFromChars | src/main/java/com/github/hilcode/regex/internal/stream/impl/DefaultCodePointStream.java:45-51 | a stream over a char sequence stands for its decoded code points |
| CodePointStreams.NewCodePointStreamFromBytes | src/main/java/com/github/hilcode/regex/internal/stream/impl/DefaultCodePointStream.java:61-67 | a stream over an input stream stands for the code points of its big-endian code units |
| CodeUnitReaders.CodeUnitReaderFromCharSequence.constructor | src/main/java/com/github/hilcode/regex/internal/stream/impl/CodeUnitReaderFromCharSequence.java:31-37 | a reader starts at the given index |
| CodeUnitReaders.CodeUnitReaderFromCharSequence.ReadCodeUnitOrEof | src/main/java/com/github/hilcode/regex/internal/stream/impl/CodeUnitReaderFromCharSequence.java:39-52 | `readCodeUnitOrEof` yields EOF at or past the end without moving, otherwise the char at the index and moves one on |
| CodeUnitReaders.NewCodeUnitReaderFromCharSequence | src/main/java/com/github/hilcode/regex/internal/stream/impl/CodeUnitReaderFromCharSequence.java:31-37 | a negative start index is rejected with "Invalid index."; an index past the end reads nothing |
| CodeUnitReaders.BytesTape | src/main/java/com/github/hilcode/regex/internal/stream/impl/CodeUnitReaderFromInputStream.java:49-66 | a byte stream stands for one unit per two bytes, first byte high, and is corrupt exactly when it has an odd byte left |
| CodeUnitReaders.CodeUnitReaderFromInputStream.constructor | src/main/java/com/github/hilcode/regex/internal/stream/impl/CodeUnitReaderFromInputStream.java:43-47 | a reader starts at the first byte |
| CodeUnitReaders.CodeUnitReaderFromInputStream.ReadByteOrEof | src/main/java/com/github/hilcode/regex/internal/stream/impl/CodeUnitReaderFromInputStream.java:28-39 | `readByteOrEof` yields the next byte and moves one on, or -1 at the end |
| CodeUnitReaders.CodeUnitReaderFromInputStream.ReadCodeUnitOrEof | src/main/java/com/github/hilcode/regex/internal/stream/impl/CodeUnitReaderFromInputStream.java:49-66 | `readCodeUnitOrEof` yields EOF at the end, "Corrupt stream." on a lone last byte, otherwise `(first << 8) + second` |
| Streams.ElementIterator.constructor | src/main/java/com/github/hilcode/regex/internal/stream/impl/DefaultStream.java:44-48 | an iterator starts at the first element |
| Streams.ElementIterator.Next | src/main/java/com/github/hilcode/regex/internal/stream/impl/DefaultStream.java:76 | `next()` yields the element at the cursor and moves one on |
| Streams.DefaultStream.constructor | src/main/java/com/github/hilcode/regex/internal/stream/impl/DefaultStream.java:44-48 | a new stream is empty exactly when the iterator has no next element, with no head or tail cached |
| Streams.DefaultStream.Head | src/main/java/com/github/hilcode/regex/internal/stream/impl/DefaultStream.java:56-69 | `head()` throws "Empty stream." on an empty stream, otherwise gives its first element, pulling it from the iterator only once |
| Streams.DefaultStream.InitHead | src/main/java/com/github/hilcode/regex/internal/stream/impl/DefaultStream.java:71-80 | `initHead` caches the first element, once |
| Streams.DefaultStream.Tail | src/main/java/com/github/hilcode/regex/internal/stream/impl/DefaultStream.java:82-110 | `tail()` is memoised: the stream itself when empty, otherwise a stream over the same iterator standing for the rest |
| Streams.DefaultStream.AppendTail | src/main/java/com/github/hilcode/regex/internal/stream/impl/DefaultStream.java:102-106 | after the head is cached the tail is a new stream over the same iterator, standing for the rest |
| Streams.NewStream | src/main/java/com/github/hilcode/regex/internal/stream/impl/DefaultStream.java:29-33 | `newStream` over a fresh iterator stands for the elements in order |
| Utf16.ToCodePoint | src/main/java/com/github/hilcode/regex/internal/stream/impl/DefaultCodePointReader.java:82 | `Character.toCodePoint` of a high and a low surrogate is the supplementary code point they encode |
| Utf16.Encode | src/main/java/com/github/hilcode/regex/internal/impl/DefaultThread.java:49 | `Character.toChars` writes one unit below 0x10000 and two above |
| Utf16.EncodeSupplementary | src/main/java/com/github/hilcode/regex/internal/impl/DefaultThread.java:49 | a supplementary code point is written as a high then a low surrogate, which decode back to it |
| Utf16.PairIsEncoding | src/main/java/com/github/hilcode/regex/internal/stream/impl/DefaultCodePointReader.java:70-82 | every surrogate pair decodes to a scalar value whose encoding is that pair |
| Utf16.DecodeNext | src/main/java/com/github/hilcode/regex/internal/stream/impl/DefaultCodePointReader.java:50-84 | one read yields a scalar value, EOF exactly at a clean end, and consumes at least one unit for a code point |
| Utf16.DecodeNextConsumesEncoding | src/main/java/com/github/hilcode/regex/internal/stream/impl/DefaultCodePointReader.java:50-84 | a decoded code point consumed exactly the units of its own encoding |
| Utf16.DecodeNextOfEncoding | src/main/java/com/github/hilcode/regex/internal/stream/impl/DefaultCodePointReader.java:50-84 | decoding the encoding of a scalar value gives it back and consumes exactly its units |
| Utf16.DecodeAll | src/main/java/com/github/hilcode/regex/internal/stream/impl/DefaultCodePointStream.java:91-136 | reading a stream to the end yields scalar values, no more than there are units |
| Utf16.DecodeAllOfEncodeAll | src/main/java/com/github/hilcode/regex/internal/stream/impl/DefaultCodePointReader.java:50-84 | decoding the encoding of scalar values gives them back, without error |
| Utf16.EncodeAllOfDecodeAll | src/main/java/com/github/hilcode/regex/internal/stream/impl/DefaultCodePointReader.java:50-84 | a unit sequence that decodes without error is the encoding of what it decodes to |
| JavaStrings.CodePointAt | src/main/java/com/github/hilcode/regex3/Regex.java:217 | `codePointAt` combines a high surrogate followed by a low one and otherwise returns the unit itself |
| JavaStrings.CharCount | src/main/java/com/github/hilcode/regex3/Regex.java:218 | `Character.charCount` is one or two |
| JavaStrings.ToChars | src/main/java/com/github/hilcode/regex3/Regex.java:408 | `toChars` writes as many units as `charCount` says |
| JavaStrings.CodePointsOf | src/main/java/com/github/hilcode/regex3/Regex.java:122-128 | a walk by `codePointAt` and `charCount` finds no more code points than units, all in range |
| JavaStrings.ToCharsOfCodePointAt | src/main/java/com/github/hilcode/regex3/Regex.java:217-218 | `toChars` writes back exactly the units `codePointAt` read |
| JavaStrings.CharsOfCodePointsOf | src/main/java/com/github/hilcode/regex3/Regex.java:122-128 | walking a string by code points and writing each back gives the string |
| JavaStrings.CharsOfSnoc | src/main/java/com/github/hilcode/regex/internal/impl/DefaultThread.java:49 | writing one more code point appends exactly its `toChars` units |
| JavaStrings.CharsOfStep | src/main/java/com/github/hilcode/regex3/Regex.java:124-127 | one step of the walk written back gives its units |
| JavaStrings.CodePointsOfEncodeAll | src/main/java/com/github/hilcode/regex3/Regex.java:122-128 | on the encoding of scalar values the walk finds them again |
| JavaStrings.ToCharsAt | src/main/java/com/github/hilcode/regex3/Regex.java:217-218 | at any index the units read fit the string and are written back unchanged |
| JavaStrings.CodePointsOfAt | src/main/java/com/github/hilcode/regex3/Regex.java:124-127 | the walk from an index is the code point there, then the walk after it |
| Decimal.DigitChar | src/main/java/com/github/hilcode/regex3/Instruction.java:157 | a digit value gives the digit character for it |
| Decimal.Digits | src/main/java/com/github/hilcode/regex3/Instruction.java:157 | a natural number prints as decimal digits without a leading zero |
| Decimal.Show | src/main/java/com/github/hilcode/regex3/Instruction.java:157 | `"" + n` starts with a minus sign exactly when n is negative |
| Decimal.DigitsRoundTrip | src/main/java/com/github/hilcode/regex3/Instruction.java:157 | the printed digits read back as the number |
| Decimal.ShowRoundTrip | src/main/java/com/github/hilcode/regex3/Instruction.java:155-158 | what `"" + n` prints, with or without a sign, parses back to n |
| Instructions.Image | src/main/java/com/github/hilcode/regex/internal/impl/DefaultInstructionStart.java:80-95 | the mapped set holds exactly the `indexMap` entries of the members |
| Instructions.MapSet | src/main/java/com/github/hilcode/regex/internal/impl/DefaultInstructionCodePoint.java:86-101 | the loop over `nextSetBit` sets exactly `indexMap[pc]` for every member pc |
| Instructions.MapProgramCounters | src/main/java/com/github/hilcode/regex/internal/impl/DefaultInstructionSuccess.java:43-47 | `mapProgramCounters` keeps the kind and the code point, maps the successors of `START` and `CODE POINT` through `indexMap`, and returns `SUCCESS` as is |
| Instructions.ImageOfInjective | src/main/java/com/github/hilcode/regex/internal/impl/DefaultInstructionCodePoint.java:86-101 | mapping through an index map that increases on the successors keeps their number |
| Instructions.WellLinkedTarget | src/main/java/com/github/hilcode/regex/internal/impl/DefaultVirtualMachine.java:73 | in a well-linked program a successor is a non-`START` instruction of the program |
| BasicInstructions.NextProgramCounters | src/main/java/com/github/hilcode/regex/internal/impl/DefaultBasicFork.java:68-75 | `getNextProgramCounters`: `SUCCESS` goes nowhere, a matcher only to the next instruction, a fork to at most two places and to one only when its delta is 1 |
| BasicInstructions.NextProgramCountersShift | src/main/java/com/github/hilcode/regex/internal/impl/DefaultBasicCodePoint.java:85-91 | successors are relative to the instruction's own position |
| BasicInstructions.ToMatcher | src/main/java/com/github/hilcode/regex/internal/impl/DefaultBasicFork.java:62-66 | `toMatcher` returns a matcher itself and throws "Not a matcher instruction." for a fork or jump |
| BasicInstructions.ToEphemeral | src/main/java/com/github/hilcode/regex/internal/impl/DefaultBasicCodePoint.java:67-71 | `toEphemeral` returns a fork or jump itself and throws "Not an ephemeral instruction." for a matcher |
| BasicInstructions.ToInstruction | src/main/java/com/github/hilcode/regex/internal/impl/DefaultBasicSuccess.java:75-79 | `toInstruction` turns a basic code point into a `CODE POINT` with the same code point and the given successors, and a basic success into `SUCCESS` |
| BasicInstructions.BasicSubroutine.AppendTo | src/main/java/com/github/hilcode/regex/internal/impl/DefaultBasicSubroutine.java:50-54 | `appendTo` keeps the target's contents and adds the subroutine's instructions after them, in order |
| Sets.Pick | src/main/java/com/github/hilcode/regex/internal/impl/DefaultBasicProgram.java:165-192 | a non-empty bit set has a member |
| Sets.LeastOf | src/main/java/com/github/hilcode/regex/internal/impl/DefaultBasicProgram.java:165-192 | a non-empty bit set has a least member |
| Sets.MinimumExists | src/main/java/com/github/hilcode/regex/internal/impl/DefaultBasicProgram.java:165-192 | a least member exists |
| Sets.NatMinimumExists | src/main/java/com/github/hilcode/regex/internal/impl/DefaultBasicProgram.java:165-192 | a least member of a set of naturals exists |
| Sets.Minimum | src/main/java/com/github/hilcode/regex/internal/impl/DefaultBasicProgram.java:174 | `nextSetBit` from 0 finds the least member |
| Sets.Ascending | src/main/java/com/github/hilcode/regex/internal/impl/DefaultBasicProgram.java:165-192 | iterating a bit set visits exactly its members, as many steps as it has members |
| Sets.AscendingSorted | src/main/java/com/github/hilcode/regex/internal/impl/DefaultBasicProgram.java:165-192 | the iteration is strictly increasing, so every member is visited once and in ascending order |

## Left out

- Dependency-injection wiring: `Container.java`, `DefaultInternalModule.java` and `DefaultInternalStreamModule.java`. They load classes by reflection and hold lazy singletons, and have no behaviour of their own.
- Double-checked locking: the `volatile`/`synchronized` code in `DefaultCodePointStream` and `DefaultStream` is concurrency plumbing. The model uses write-once fields and a single thread of execution.
- Diagnostics and printing are output only and change no state:
  - the debug output of `DefaultRegularExpression.java:131-136`;
  - `DefaultBasicProgram.print` and `Program.print`;
  - the max-threads `println` of `DefaultVirtualMachine.java:88-91`, along with the `maxThreads` counter it prints;
  - the `println` of the regex3 `Regex` constructor;
  - the `%c`-style `toString` renderings of the instructions (only `Range.toString` is kept).
- Demos and benchmarks use a memory meter, a stopwatch, a bitmap library and `Random`: `regex/Main.java`, `regex3/Main.java`, `plumbum/Plumbum.java`, `Trie.main` and `Trie2.main`. `Functions.main` is only the source of the `concatenate` property (`FingerTrees.Concatenate`).
- `VirtualMachine.generate` in `regex3/Regex.java` depends on `java.util.Random`.
- The static factories `Regex.codePoint`/`codePoints`/`text`/`concat`/`optional`/`zeroOrMore`/`firstOf` (`regex3/Regex.java:29-82`) are one-line delegations to a fresh `Builder`, and so is `CodePoints.include` (`regex3/CodePoints.java:25-53`). The `Builder` methods they call are modelled.
- Stubs in `regex2/Regex.java`: `Instructions.instructions` returns null and never raises its nesting level; the `Regex` constructor and the `List<T>` classes are unused.
- `Program.java` wraps an immutable list; the program is a `seq`. The `get`/`getFirstInstruction` the virtual machine calls on it are indexing into that `seq`.
- `CodeUnitReaderFromReader.java` passes `java.io.Reader` straight through.
- The `IOException` wrapping in `CodeUnitReaderFromInputStream.java:28-39` is I/O. The byte stream is a byte sequence with a position.
- `ValueMapper.java`, `TextBuilderStrategy.java` and `Thing.java` are not part of this model: they wrap Java `toString` and constant strings. A `TextBuilder` getter composed with its `ValueMapper` is one function from the instance to the rendered text.
- Library predicates are uninterpreted:
  - `Character.isDefined` is `0..0x10FFFF` intersected with an unspecified character database;
  - `Class.getSimpleName` is the builder's type name;
  - a `Charset` is its canonical name;
  - the `EOF`/`UNREAD` constants are constructors distinct from every code unit and code point.
- `XmlVersion.java` and `XmlNamespace.java` are not part of this model. A version is a value, and a namespace is a key with its list of values.
- Null members inside the lists handed to the `Element` factories are not modelled: those lists are `seq`s of values, and only a missing (null) list is refused. `Document`'s lists do model null members, because `ImmutableList.copyOf` refuses them.
- Indentations.HashCode: `String.hashCode` sums UTF-16 code units, but the model sums the text's characters. The two agree on text without supplementary characters.
- Java reference identity: `Trie2` compares slots with the trie's `empty` object by reference. The model compares values.
- PersistentTries.SumCounts: `elementCount` is a Java `int` in the source and could overflow past 2^31 - 1 stored values. The model counts with unbounded integers.
- Linker.Propagate: whether the `while (somethingChanged)` loop of `DefaultBasicProgram.java:218-242` terminates is not evident from the code, so the propagation takes an explicit pass budget. When the budget runs out, it answers "Program counters did not settle." instead of looping on.
- Linker.InitNextProgramCounters: takes the same pass budget and passes it to `Propagate`, so it too can answer "Program counters did not settle.", which the source never does.
- Linker.DefaultBasicProgram.GetNextProgramCounters: takes the same pass budget and passes it to `InitNextProgramCounters`, so it can answer "Program counters did not settle.", which `getNextProgramCounters` never does. On that answer the cache stays empty.
- Linker.DefaultBasicProgram.ToProgram: takes the same pass budget and passes it to `GetNextProgramCounters`, so it can answer "Program counters did not settle.", which `toProgram` never does.
- Regex3Builder.Builder.FirstOf: requires that no operand is the builder itself. `firstOf(this, ...)` would read the program while it is being extended.
- Regex3Vm.VirtualMachine.Run: requires a program with no `Single(EOF)`; a `Range` never matches the end-of-input marker anyway, since asking about it throws. `Builder.codePoint(CodePoint.EOF)` (`regex3/Regex.java:103-107`) writes such a `Single`, and inside `zeroOrMore` the source's `run` never ends on it, because `nextCodePoint` keeps returning `EOF` (see Findings). With the requirement every run ends.
- Regex3Vm.Regex.Match: has the same requirement as `Regex3Vm.VirtualMachine.Run`.
- BasicInstructions.BasicSubroutine.AppendTo: returns the grown list instead of adding to the caller's list in place. The compiler's lists are values.
- CodePointStreams.DefaultCodePointStream.GetHeadCodePoint: after a read that finds the input corrupt ("Corrupt stream."), it no longer promises `Valid()`, so the model says nothing about that stream afterwards.
- CodePointStreams.DefaultCodePointStream.IsEmpty: likewise promises `Valid()` only when the read was not corrupt.
- CodePointStreams.DefaultCodePointStream.Head: likewise promises `Valid()` only when the read was not corrupt.
- The `checkNotNull` calls on a token's type and text (`DefaultToken.java:44` and `DefaultToken.java:46`) are not modelled: the `Tokens.Token` datatype has no null. Only the tokenizer builds tokens, and it never passes null.
- The `checkNotNull(matchedText, "Missing 'matchedText'.")` of the `Match` constructor (`Match.java:35`) is not modelled. The machine builds a match only from a thread's text, which is never null.
- A thread's matched text is the sequence of its code points rather than a Java `String`. `VirtualMachine.ConsumeText` shows how the two correspond.

## Findings

| source | as written | input that shows it | evidently intended | confidence | as-written member | corrected member |
|---|---|---|---|---|---|---|
| src/main/java/com/github/hilcode/regex3/Regex.java:327-413 | one bit set de-duplicates both the threads of the current tick and the threads queued for the next one, so a consuming thread is dropped when its next program counter was already visited in this tick | pattern `a?a` (`Fork`, `Single a`, `Single a`, `Success`) on "aa" matches "a" | a match of "aa": each list has its own de-duplication | not executed | Regex3FixedVm.AsWrittenDropsThread | Regex3FixedVm.FixedKeepsThread |
| src/main/java/com/github/hilcode/regex3/Regex.java:357-366 | a `Range` thread alive at the end of input asks its bit set about `EOF`, whose value is -1, which throws `IndexOutOfBoundsException` | a single `Range` over `a` on "" | the range does not match at the end of input, so the run reports no match | not executed | Regex3FixedVm.AsWrittenRangeAtEnd | Regex3FixedVm.FixedRangeAtEnd |
| src/main/java/com/github/hilcode/regex3/Regex.java:103-107 | `codePoint(CodePoint.EOF)` writes a `Single` that matches the end-of-input marker, and `nextCodePoint` returns that marker again on every later read | `zeroOrMore(codePoint(CodePoint.EOF))` on "": the thread at the `JUMP` is queued again on every pass, so `run` never returns | the run ends once the input is used up, here with the empty match | not executed | Regex3FixedVm.AsWrittenEofNeverEnds | Regex3FixedVm.FixedEofLoopEnds |
| src/main/java/com/github/hilcode/regex2/Regex.java:384-385 | the low surrogate is assigned from the high one, so a pair decodes as `toCodePoint(hi, hi)` | "𐀀" (U+10000) decodes to `FC00` | U+10000, the code point of the pair | not executed | Regex2.AsWrittenPairDecode | Regex2.DecodeRoundTrip |
| src/main/java/com/github/hilcode/plumbum/Printer.java:44-58 | among several namespaces, one with a single value is printed without its closing quote | two namespaces, the first with the single value `u`: the line reads `key="u` | `key="u"`, as for a lone namespace | not executed | Printers.DocumentUnclosed | Printers.AttributeSpells |
