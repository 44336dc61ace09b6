# xsd2codemirror in Dafny

A model of `SimpleSchemaParser`, the library behind xsd2codemirror. It turns a compiled
XML Schema into a flat graph of simplified elements. Each element has a qualified name,
a top-level flag, attributes with their enumerated values, and the names of its direct
children. It then serializes that graph as the JSON schema-info object that CodeMirror's
XML hint addon reads.

The model has three parts.

- **Parser.** `SchemaParser.GetXmlElements` is a breadth-first work-list loop. It starts
  from the global element declarations and materialises each qualified name once; the
  first declaration dequeued with a name wins. `ParseElement` and `ParseAttribute` parse
  one declaration. `ParseGroupBase` / `ParseGroupBaseInternal` expand a
  sequence/choice/all group, which may be cyclic, into the element particles reachable
  through it. A shared processed set makes each group contribute once.
- **Element graph.** `SimpleXmlElement` and `SimpleXmlAttribute` are immutable
  datatypes. Their hash sets and dictionary become duplicate-free sequences in
  insertion order, which is the order those collections enumerate in when nothing is
  ever removed.
- **Serializer.** `CodeMirrorSchemaInfoSerializer.ToJsonString` builds an ordered JSON
  value. `JsonWriter` maps it to the stream of `JsonTextWriter` calls and lays that
  stream out compact or indented.

Modules, following the source:

| module | file | models |
|---|---|---|
| `Outcomes` | outcomes.dfy | `Option`, `Result` (exceptions become `Err`) |
| `XNames` | xnames.dfy | `XmlQualifiedName`, `XName`, `XName.ToString` and `XName.Get` |
| `Schema` | schema.dfy | the compiled `XmlSchemaSet`: declarations and groups as an id-indexed graph |
| `Collections` | collections.dfy | sequences used as insertion-ordered sets |
| `Ordering` | ordering.dfy | LINQ `OrderBy` (stable sort) and `StringComparer.Ordinal` |
| `Extensions` | extensions.dfy | `Extensions.cs` |
| `SimpleXml` | simple_xml.dfy | `SimpleXmlElement.cs`, `SimpleXmlAttribute.cs` |
| `ParticleWalker` | particle_walker.dfy | `ParseGroupBase`, `ParseGroupBaseInternal` |
| `ElementParser` | element_parser.dfy | `ParseAttribute`, `ParseElement` |
| `TraversalInvariant`, `BreadthFirst` | traversal_invariant.dfy, breadth_first.dfy | the invariant of the `GetXmlElements` loop and its preservation |
| `SchemaParser` | schema_parser.dfy | `GetXmlElements` |
| `JsonWriter` | json.dfy | the `JsonTextWriter` call stream and its two layouts |
| `CodeMirrorSerializer` | serializer.dfy | `CodeMirrorSchemaInfoSerializer.cs` |

**Comparers.** Three comparers order the output.

- `OrderByQualifiedName` sorts with the default, culture-sensitive string comparer.
  Attribute values use `StringComparer.InvariantCultureIgnoreCase`. Both appear as
  parameters (`culture`, `ignoreCase`). Ordering lemmas assume only that they are total
  preorders.
- The children sort uses `StringComparer.Ordinal`, which is concrete: `OrdinalLe`
  compares strings character by character by `OrdinalRank`, which is comparing their
  UTF-16 code units (`Ordering.OrdinalLeIsUtf16Order`).

**Element writer parameter.** The lemmas about the top-level object (`Document`,
`WriteElements`) hold for any element writer `obj: Element -> Json`. Likewise, the
lemmas about `"attrs"` (`AttrsObject`) hold for any attribute writer `value`.
`ToJson` instantiates them with `WriteElement` and `WriteAttribute`, which write what
`WriteElement` in the source writes.

**Names.** A local name satisfies `IsNcName`: it is non-empty and contains none of `{`,
`}`, `!`, `:`. Every name a compiled schema produces is an NCName. Under that rule,
`Render` (`XName.ToString`) is injective, is inverted by `ParseExpandedName`
(`XName.Get`), and never yields `"!top"`.

## Model

| member | source | states |
|---|---|---|
| SchemaParser.GetXmlElements | SimpleSchemaParser/SchemaParser.cs:74-89 | Without a compiled schema the call fails with `SchemaNotCompiled`. On success: element names are unique and every element is valid. Exactly the first N elements, N the number of global declarations, are top level, and they are the global declarations in order. Every child name is an element, and every later element is a child of an earlier one. Each element is built from the first dequeued declaration with its name, and the elements are in the order their declarations were dequeued. The dequeuing order (`BreadthFirst.QueueOrder`) is first-in first-out: the global declarations, then what each dequeued declaration with a new name yields, in dequeue order. Each declaration was enqueued before it was dequeued, never by itself or by a later one. On failure (`BreadthFirst.FirstFailure`), the call stopped at the first declaration in that same causal order whose name is new and whose content fails. Every earlier declaration with a new name parsed, and declarations whose name was taken are never parsed. If no declaration's content fails, the call succeeds. |
| SchemaParser.Visit | SimpleSchemaParser/SchemaParser.cs:80-87 | One loop iteration keeps the traversal invariant, including first-in first-out order. A known name leaves the elements alone and only drops the head of the queue. A new name appends the head's element and enqueues what its content yields at the back. The pair (unseen names, queue length) strictly decreases, so the loop terminates on cyclic schemas. On failure the dequeued declaration is the first failure in queue order. |
| SchemaParser.VisitNew | SimpleSchemaParser/SchemaParser.cs:82-86 | A dequeued declaration with a new name parses with the positional top-level flag. Its element is appended and the declarations its content yields, whatever the flag, are enqueued at the back, keeping the invariant; or its content failure is reported. |
| SchemaParser.Traverse | SimpleSchemaParser/SchemaParser.cs:78-88 | The work-list loop ends with an empty queue, the invariant intact and the dequeuing order a whole causal first-in first-out order. Otherwise it stops at the first declaration in that order whose name is new and whose content fails. |
| BreadthFirst.TraversalStart | SimpleSchemaParser/SchemaParser.cs:78-79 | The queue seeded with the global declarations and an empty dictionary satisfy the invariant. |
| BreadthFirst.QueueDrained | SimpleSchemaParser/SchemaParser.cs:80-88 | When the loop ends with an empty queue, the declarations dequeued are the whole first-in first-out order, each enqueued before it was dequeued. |
| BreadthFirst.FailureWitness | SimpleSchemaParser/SchemaParser.cs:80-86 | A traversal that stopped at its first failure stopped at a declaration whose content fails, so a schema with no failing content never fails. |
| BreadthFirst.GlobalIsFresh | SimpleSchemaParser/SchemaParser.cs:78-83 | While the global declarations are being dequeued, each one's name is not yet in the dictionary, so the positional top-level rule never misfires. |
| BreadthFirst.TraversalSkip | SimpleSchemaParser/SchemaParser.cs:81-82 | Discarding a declaration whose name is already materialised keeps the invariant. |
| BreadthFirst.TraversalAdd | SimpleSchemaParser/SchemaParser.cs:82-86 | Materialising a new name keeps the invariant. The name is drawn from the finite universe of declaration names and was unseen. |
| BreadthFirst.TraversalDone | SimpleSchemaParser/SchemaParser.cs:80-88 | With the queue empty, the invariant yields every success property of `GetXmlElements`, the order of the elements included. |
| TraversalInvariant.FirstWinsAdd | SimpleSchemaParser/SchemaParser.cs:82-85 | A newly added element comes from the first dequeued declaration with its name, and no earlier dequeued declaration had that name. |
| TraversalInvariant.FirstWinsSkip | SimpleSchemaParser/SchemaParser.cs:81-82 | A skipped declaration's name is already an element's, so first-wins still holds. |
| TraversalInvariant.GlobalPhaseAdd | SimpleSchemaParser/SchemaParser.cs:79-84 | The global declarations are dequeued first and in order, each making exactly one element. |
| TraversalInvariant.FrontierAdd | SimpleSchemaParser/SchemaParser.cs:84 | After a step, every queued non-global declaration is a child of a built element. Every child name is materialised or still queued. |
| TraversalInvariant.NamesAdd | SimpleSchemaParser/SchemaParser.cs:85 | The dictionary's key set stays the set of element names, each held once. |
| TraversalInvariant.ParseElementFailure | SimpleSchemaParser/SchemaParser.cs:91-126 | `ParseElement` fails only when a complex type's content particle fails. |
| TraversalInvariant.YieldIgnoresFlag | SimpleSchemaParser/SchemaParser.cs:91-112 | What a parsed declaration enqueues does not depend on its top-level flag: it is the element particles its complex type's content yields. |
| TraversalInvariant.ExpandStep | SimpleSchemaParser/SchemaParser.cs:81-84 | Dequeuing one more declaration adds its yields to what the dequeued declarations enqueue when its name is new, and nothing otherwise. |
| TraversalInvariant.FifoSkip | SimpleSchemaParser/SchemaParser.cs:81-82 | Discarding a known name keeps "dequeued, then queued" equal to "global declarations, then everything enqueued". |
| TraversalInvariant.FifoAdd | SimpleSchemaParser/SchemaParser.cs:81-86 | Dequeuing a new name and enqueueing its yields at the back keeps that first-in first-out equation. |
| TraversalInvariant.ExpandPrefix | SimpleSchemaParser/SchemaParser.cs:80-87 | What the first i dequeued declarations enqueue is a prefix of what all of them enqueue. |
| TraversalInvariant.CausalStep | SimpleSchemaParser/SchemaParser.cs:80-81 | Dequeuing the head of a non-empty first-in first-out queue keeps every dequeued declaration enqueued before its own dequeue. |
| TraversalInvariant.FifoPrefix | SimpleSchemaParser/SchemaParser.cs:78-87 | Once the queue is empty, the dequeuing order starts with the global declarations followed by what the first i dequeued declarations enqueued. |
| BreadthFirst.NamesDequeued | SimpleSchemaParser/SchemaParser.cs:82-85 | The dictionary's keys are exactly the names of the declarations dequeued so far. |
| BreadthFirst.SkipKeepsFifo | SimpleSchemaParser/SchemaParser.cs:81-82 | Discarding a known name keeps the queue first-in first-out and causal. |
| BreadthFirst.AddKeepsFifo | SimpleSchemaParser/SchemaParser.cs:82-86 | Materialising a new name enqueues what its element yields at the back, keeping the queue first-in first-out and causal. |
| BreadthFirst.FailureIsFirst | SimpleSchemaParser/SchemaParser.cs:80-86 | A dequeued declaration with a new name whose content fails is the first failure in first-in first-out order. |
| BreadthFirst.FirstFailureStep | SimpleSchemaParser/SchemaParser.cs:80-86 | The causal queue prefix, the new name, the failing content and the earlier successes together make the traversal's failure state. |
| TraversalInvariant.NewNamesParsed | SimpleSchemaParser/SchemaParser.cs:82-85 | Every dequeued declaration whose name was new when it was dequeued has been parsed, so its content does not fail. |
| TraversalInvariant.NewNameParsed | SimpleSchemaParser/SchemaParser.cs:82-85 | The same for one dequeued position: its element was built from that very declaration. |
| TraversalInvariant.NextInQueue | SimpleSchemaParser/SchemaParser.cs:80-81 | The next declaration dequeued continues the first-in first-out order. |
| TraversalInvariant.BuiltNames | SimpleSchemaParser/SchemaParser.cs:83-85 | Each element is keyed by the name of the declaration it was built from. |
| TraversalInvariant.NameInPrefix | SimpleSchemaParser/SchemaParser.cs:82 | The name of a declaration dequeued earlier is among the names dequeued so far. |
| TraversalInvariant.ParsedNotFailing | SimpleSchemaParser/SchemaParser.cs:91-126 | A declaration that parses has no failing content. |
| Collections.IncreasingAtLeastIndex | SimpleSchemaParser/SchemaParser.cs:80-85 | In a strictly increasing sequence of dequeue positions, each position is at least its index, so there are no more elements than declarations dequeued. |
| Collections.QueueStep | SimpleSchemaParser/SchemaParser.cs:78-81 | Taking a queue's head and appending at its back keeps "taken, then waiting" equal to "start, then added". |
| SchemaParser.ShadowedNameSchemaFacts | SimpleSchemaParser/SchemaParser.cs:91-126 | In the example schema every declaration parses, `A` yields its two `E` declarations in order, and the second `E` would build an element with an attribute. |
| SchemaParser.ShadowedNameCompiles | SimpleSchemaParser/SchemaParser.cs:44-56 | The example schema satisfies what a successful compile guarantees. |
| SchemaParser.ShadowedNameContent | SimpleSchemaParser/SchemaParser.cs:147-177 | The example's sequence group expands to its two element particles, in order. |
| SchemaParser.ShadowedNameOrder | SimpleSchemaParser/SchemaParser.cs:78-87 | In the example, the dequeuing order starts with `A` and then the two `E` declarations. |
| SchemaParser.ShadowedNameOutcome | SimpleSchemaParser/SchemaParser.cs:80-86 | In the example, the success contract forces `A` first and then an `E` built from the first `E` dequeued. |
| SchemaParser.ShadowedNameFirstTwo | SimpleSchemaParser/SchemaParser.cs:80-86 | In the example shape, `A` and the first `E` have no failing content, and dequeuing `A` enqueues both `E` declarations. |
| SchemaParser.ShadowedQueueStart | SimpleSchemaParser/SchemaParser.cs:78-84 | In the example shape, any start of the queue order begins with `A` and then the first `E`. |
| SchemaParser.ShadowedNameNeverFails | SimpleSchemaParser/SchemaParser.cs:80-86 | In the example shape, no failure state exists, whatever the second `E` holds: its name is taken before it is dequeued, so it is never parsed. |
| SchemaParser.ShadowedNameRun | SimpleSchemaParser/SchemaParser.cs:74-89 | On the example, `GetXmlElements` succeeds, dequeues `A` and then both `E` declarations, and lists `A` first. |
| SchemaParser.ShadowedNameExample | SimpleSchemaParser/SchemaParser.cs:74-89 | When one name has two declarations, the traversal succeeds and builds the element from the first one dequeued: `E` without attributes, not `E` with attribute `x`. |
| SchemaParser.SimpleRootEnqueuesNothing | SimpleSchemaParser/SchemaParser.cs:91-95 | When the only global declaration is a simple type, dequeuing it enqueues nothing and it cannot fail. |
| SchemaParser.SimpleRootSecond | SimpleSchemaParser/SchemaParser.cs:78-84 | In that shape, once the global declaration is dequeued, nothing is enqueued for a second position. |
| SchemaParser.SimpleRootQueue | SimpleSchemaParser/SchemaParser.cs:78-84 | In that shape, the only causal start of the queue order is the global declaration alone. |
| SchemaParser.SimpleRootNeverFails | SimpleSchemaParser/SchemaParser.cs:80-86 | In that shape, no failure state exists, however the other declarations would fail: none of them is ever enqueued. |
| SchemaParser.SimpleRootCompiles | SimpleSchemaParser/SchemaParser.cs:44-56 | The second example schema, a simple-type `A` with `X` and `Y` that only enqueue each other, satisfies what a successful compile guarantees. |
| SchemaParser.SimpleRootContentX | SimpleSchemaParser/SchemaParser.cs:147-177 | In that example, the content of `X` yields `X` itself and then `Y`. |
| SchemaParser.SimpleRootContentY | SimpleSchemaParser/SchemaParser.cs:159-175 | In that example, the content of `Y` is a group reference, so it fails with `NotImplemented`. |
| SchemaParser.SimpleRootSelfEnqueue | SimpleSchemaParser/SchemaParser.cs:78-86 | In that example, `[A, X, Y]` fits "global declarations, then what the earlier ones yield" and ends in a failing new name, but only because `X` enqueues itself. It is not causal, so it is not a dequeuing order. |
| SchemaParser.SimpleRootRun | SimpleSchemaParser/SchemaParser.cs:74-89 | On a schema whose only global declaration is a simple type, `GetXmlElements` succeeds, dequeues only that declaration, and returns exactly its top-level element. |
| ElementParser.ParseElement | SimpleSchemaParser/SchemaParser.cs:91-126 | On success, the element carries the declaration's name and the given top-level flag and is valid. Its child-name set is exactly the names of the yielded declarations, which are handed back for the queue. A simple type always succeeds with no attributes, no children and nothing yielded. |
| ElementParser.ParseElementComplex | SimpleSchemaParser/SchemaParser.cs:93-124 | For a complex type, the attributes are exactly the parsed attribute uses, in order. The element parses iff its content particle does, yields what the content yields, and fails with the content's error. |
| ElementParser.ParseContent | SimpleSchemaParser/SchemaParser.cs:102-120 | No particle yields nothing. A particle of another class succeeds iff its type name is `EmptyParticle`, yielding nothing, and otherwise fails with `NotImplemented(typeName)`. |
| ElementParser.ParseContentExpandsReachable | SimpleSchemaParser/SchemaParser.cs:106-113 | A group or group-reference particle succeeds iff no reachable group holds an unsupported item. It then yields the element items of exactly the reachable groups, each group once. |
| ElementParser.ParseAttribute | SimpleSchemaParser/SchemaParser.cs:128-140 | The attribute has the use's name. A value is possible iff the type is a restriction with an enumeration facet of that value. The values are duplicate-free. |
| ElementParser.EnumerationValues | SimpleSchemaParser/SchemaParser.cs:133-137 | A value is listed iff some facet is an enumeration facet with that value. |
| ElementParser.ParseAttributes | SimpleSchemaParser/SchemaParser.cs:97-98 | One parsed attribute per attribute use, in use order. |
| ElementParser.ParseAttributesDistinct | SimpleSchemaParser/SchemaParser.cs:97-98 | Attribute uses with distinct names give valid attributes with distinct names. |
| ElementParser.AddAttributes | SimpleSchemaParser/SchemaParser.cs:97-100 | The loop changes only the attributes: name, top-level flag and children are kept. |
| ElementParser.AddAttributesAppends | SimpleSchemaParser/SchemaParser.cs:97-100 | When no two of the element's attributes and the new ones share a name, `AddAttribute` accepts every new attribute, so they are appended in order. |
| ElementParser.AddChildren | SimpleSchemaParser/SchemaParser.cs:109-112 | The child set grows by exactly the yielded declarations' names. The rest of the element is unchanged and stays valid. |
| ParticleWalker.ParseGroupBase | SimpleSchemaParser/SchemaParser.cs:147-152 | One expansion from a fresh processed set. On success the group itself is processed, and only existing groups are. |
| ParticleWalker.ParseGroupBaseExpandsReachable | SimpleSchemaParser/SchemaParser.cs:147-177 | The expansion processes exactly the groups reachable from the root. It yields each such group's element items once, even through cycles. It succeeds iff none of those groups holds an unsupported item. |
| ParticleWalker.ParseGroupBaseInternal | SimpleSchemaParser/SchemaParser.cs:154-177 | The processed set only grows: it gains the group and only existing groups. Everything yielded is an element declaration. |
| ParticleWalker.ParseGroupBaseInternalFound | SimpleSchemaParser/SchemaParser.cs:154-177 | A group already processed yields nothing and changes nothing. Otherwise the yield is the sum of the element items of the newly processed groups, each counted once. |
| ParticleWalker.ParseGroupBaseInternalShape | SimpleSchemaParser/SchemaParser.cs:154-177 | The newly processed groups hold only supported items, are reachable from the group, and are closed under nesting. |
| ParticleWalker.ParseGroupBaseInternalSucceeds | SimpleSchemaParser/SchemaParser.cs:154-177 | If no reachable group holds an unsupported item, the expansion succeeds. |
| ParticleWalker.ParseItems | SimpleSchemaParser/SchemaParser.cs:159-175 | Processing a group's items only grows the processed set, and everything found is an element declaration. |
| ParticleWalker.ParseItemsFound | SimpleSchemaParser/SchemaParser.cs:159-175 | The items yield their own element items plus those of every group they newly process, each counted once. Wildcards yield nothing. |
| ParticleWalker.ParseItemsShape | SimpleSchemaParser/SchemaParser.cs:159-175 | On success no item is a group reference or another unsupported kind. Every nested group ends up processed, and the newly processed groups are reached from the items. |
| ParticleWalker.ParseItemsSucceeds | SimpleSchemaParser/SchemaParser.cs:159-175 | Items with no unsupported kind, directly or in any reachable group, are processed successfully. |
| SimpleXml.NewAttribute | SimpleSchemaParser/SimpleXmlAttribute.cs:9 | A new attribute has the given name and no possible values. |
| SimpleXml.AddPossibleValue | SimpleSchemaParser/SimpleXmlAttribute.cs:13-15 | Reports true iff the value was new. The value set becomes the old set plus the value, with no duplicates. A repeated value changes nothing. |
| SimpleXml.AddPossibleValueIdempotent | SimpleSchemaParser/SimpleXmlAttribute.cs:13-15 | Adding a value twice reports false the second time and leaves the attribute as it was. |
| SimpleXml.AddPossibleValues | SimpleSchemaParser/SchemaParser.cs:133-137 | Adding values one by one yields the union of the old and new value sets, with no duplicates. |
| SimpleXml.NewElement | SimpleSchemaParser/SimpleXmlElement.cs:10-12 | A new element has the given name and flag, an empty dictionary and no children. |
| SimpleXml.AttributeMap | SimpleSchemaParser/SimpleXmlElement.cs:7-14 | The dictionary's keys are exactly the stored attribute names. |
| SimpleXml.AddAttribute | SimpleSchemaParser/SimpleXmlElement.cs:22-28 | Accepted iff the name is not yet a key. A refused attribute changes nothing, so the first attribute wins. An accepted one is appended, and validity is kept. |
| SimpleXml.AddAttributeUpdatesMap | SimpleSchemaParser/SimpleXmlElement.cs:22-28 | A successful add puts exactly that entry in the dictionary. |
| SimpleXml.AttributeMapKeyedByName | SimpleSchemaParser/SimpleXmlElement.cs:22-28 | In a valid element, the dictionary holds each stored attribute under its own name. |
| SimpleXml.AddChild | SimpleSchemaParser/SimpleXmlElement.cs:30-32 | Reports true iff the name was new. The child set becomes the old set plus the name, and the children stay duplicate-free. |
| Extensions.ToXName | SimpleSchemaParser/Extensions.cs:9-11 | The local name and namespace are carried over unchanged. |
| Extensions.ToXNameInjective | SimpleSchemaParser/Extensions.cs:9-15 | Two qualified names with NCName local parts give the same name string iff they are equal. |
| Extensions.ToQualifiedNameString | SimpleSchemaParser/Extensions.cs:13-15 | For an NCName local part, the name string reads back as the same qualified name. |
| Extensions.OrderByQualifiedName | SimpleSchemaParser/Extensions.cs:17-19 | The result is a permutation of the input. |
| Extensions.OrderByQualifiedNameSorted | SimpleSchemaParser/Extensions.cs:17-19 | Under a total preorder, the result is ordered by name string. Items the comparer ranks equal keep their input order (`OrderBy` is stable). |
| XNames.RenderRoundTrip | SimpleSchemaParser/Extensions.cs:13-15 | Reading back a rendered name with an NCName local part gives the name again. |
| XNames.RenderInjective | SimpleSchemaParser/Extensions.cs:13-15 | Names with NCName local parts render equal iff they are equal. |
| Ordering.SortBySorted | SimpleSchemaParser/Extensions.cs:18 | `OrderBy` under a total preorder returns its input in order. |
| Ordering.SortByStable | SimpleSchemaParser/Extensions.cs:18 | `OrderBy` keeps the input order of items that compare equal. |
| Ordering.SortByOrderIrrelevant | SimpleSchemaParser/CodeMirrorSchemaInfoSerializer.cs:98 | Under an antisymmetric total preorder with an injective key, two permutations sort to the same sequence. |
| Ordering.OrdinalIsTotalOrder | SimpleSchemaParser/CodeMirrorSchemaInfoSerializer.cs:98 | `StringComparer.Ordinal` is a total, antisymmetric preorder. |
| Ordering.OrdinalRankIsUtf16Order | SimpleSchemaParser/CodeMirrorSchemaInfoSerializer.cs:98 | Comparing characters by `OrdinalRank` is comparing their UTF-16 code-unit sequences. |
| Ordering.Utf16PrefixFree | SimpleSchemaParser/CodeMirrorSchemaInfoSerializer.cs:98 | The UTF-16 encodings of two different characters differ at a position inside both, so neither is a prefix of the other. |
| Ordering.CodeUnitsLessCommonPrefix | SimpleSchemaParser/CodeMirrorSchemaInfoSerializer.cs:98 | A common prefix does not change the code-unit order. |
| Ordering.CodeUnitsLessDiffer | SimpleSchemaParser/CodeMirrorSchemaInfoSerializer.cs:98 | Once two code-unit sequences differ inside both, what follows them does not change their order. |
| Ordering.OrdinalLeIsUtf16Order | SimpleSchemaParser/CodeMirrorSchemaInfoSerializer.cs:98 | `StringComparer.Ordinal` on whole strings: `a` sorts no later than `b` iff they are equal or `a`'s UTF-16 code units come first lexicographically, a proper prefix first. |
| CodeMirrorSerializer.TopLevel | SimpleSchemaParser/CodeMirrorSchemaInfoSerializer.cs:53 | Keeps exactly the top-level elements. It is non-empty iff some element is top level. |
| CodeMirrorSerializer.TopLevelCounts | SimpleSchemaParser/CodeMirrorSchemaInfoSerializer.cs:53 | Each top-level element is kept as often as it occurs, and every other element is dropped. |
| CodeMirrorSerializer.TopLevelNamesDistinct | SimpleSchemaParser/CodeMirrorSchemaInfoSerializer.cs:53 | When the elements' names are distinct, so are the names of the top-level elements kept. |
| CodeMirrorSerializer.WriteTopElements | SimpleSchemaParser/CodeMirrorSchemaInfoSerializer.cs:63-73 | Writes nothing for no top-level element. Otherwise it writes one member, `"!top"`, holding an array with one item per element. |
| CodeMirrorSerializer.TopArrayListsTopLevel | SimpleSchemaParser/CodeMirrorSchemaInfoSerializer.cs:63-73 | When some element is top level, `"!top"` lists every top-level element's name string and nothing else, one entry per element, ordered by the culture comparer. |
| CodeMirrorSerializer.TopNameStringsDistinct | SimpleSchemaParser/CodeMirrorSchemaInfoSerializer.cs:69-70 | With distinct NCName-local names, the top-level elements' name strings are distinct. |
| CodeMirrorSerializer.SortedNameStringsDistinct | SimpleSchemaParser/CodeMirrorSchemaInfoSerializer.cs:69-70 | Sorting elements with distinct name strings keeps them distinct. |
| CodeMirrorSerializer.TopNamesDistinct | SimpleSchemaParser/CodeMirrorSchemaInfoSerializer.cs:63-73 | When element names are distinct with NCName local parts, as `GetXmlElements` builds them, `"!top"` lists each name once. |
| CodeMirrorSerializer.TopKeyIffTopLevel | SimpleSchemaParser/CodeMirrorSchemaInfoSerializer.cs:52-56 | `"!top"` is a key iff some element is top level, and then it is the first key. |
| CodeMirrorSerializer.ElementPositions | SimpleSchemaParser/CodeMirrorSchemaInfoSerializer.cs:52-57 | The object is the `"!top"` member (if any) followed by one member per element. |
| CodeMirrorSerializer.ElementMembersOneEach | SimpleSchemaParser/CodeMirrorSchemaInfoSerializer.cs:54-56 | Every element gets its member, and every member belongs to some element, one each. |
| CodeMirrorSerializer.ElementKeysSorted | SimpleSchemaParser/CodeMirrorSchemaInfoSerializer.cs:54 | The element members are in `OrderByQualifiedName` order of their keys. |
| CodeMirrorSerializer.ElementMemberKeysDistinct | SimpleSchemaParser/CodeMirrorSchemaInfoSerializer.cs:54-56 | Elements with distinct names give element members with distinct keys. |
| CodeMirrorSerializer.ElementKeysDistinct | SimpleSchemaParser/CodeMirrorSchemaInfoSerializer.cs:52-57 | Elements with distinct names give an object whose keys, `"!top"` included, are all distinct. |
| CodeMirrorSerializer.ElementKeysNotTop | SimpleSchemaParser/CodeMirrorSchemaInfoSerializer.cs:54-56 | No element's key is `"!top"`. |
| CodeMirrorSerializer.ElementKeysPresent | SimpleSchemaParser/CodeMirrorSchemaInfoSerializer.cs:54-56 | Every element's name string is a key. |
| CodeMirrorSerializer.Document | SimpleSchemaParser/CodeMirrorSchemaInfoSerializer.cs:52-57 | The top-level object has one member per element, plus `"!top"` first when some element is top level. |
| CodeMirrorSerializer.ToJson | SimpleSchemaParser/CodeMirrorSchemaInfoSerializer.cs:48-61 | The document is an object with one member per element plus `"!top"` first when some element is top level, and every element's name string is a key. |
| CodeMirrorSerializer.ToJsonString | SimpleSchemaParser/CodeMirrorSchemaInfoSerializer.cs:48-61 | The text written, with layout whitespace stripped, parses back to exactly the document `ToJson` describes, with nothing left over. |
| CodeMirrorSerializer.ChildrenAreKeys | SimpleSchemaParser/CodeMirrorSchemaInfoSerializer.cs:95-102 | When every child name is an element (as `GetXmlElements` guarantees), every name in a `"children"` array is a key of the object. |
| CodeMirrorSerializer.ElementObject | SimpleSchemaParser/CodeMirrorSchemaInfoSerializer.cs:75-104 | An element writes an object with at most two members: `"attrs"` is present iff there are attributes and `"children"` iff there are children, with `"attrs"` before `"children"` and no other key. An element with neither is the empty object. |
| CodeMirrorSerializer.ElementObjectMembers | SimpleSchemaParser/CodeMirrorSchemaInfoSerializer.cs:75-104 | The object holds `"attrs"` first when the element has attributes and `"children"` last when it has children, and nothing else. |
| CodeMirrorSerializer.ElementObjectKeys | SimpleSchemaParser/CodeMirrorSchemaInfoSerializer.cs:78-103 | The object's keys are `"attrs"` when there are attributes, then `"children"` when there are children. |
| CodeMirrorSerializer.WriteElement | SimpleSchemaParser/CodeMirrorSchemaInfoSerializer.cs:75-104 | Every element is written as an object whose keys are `"attrs"` iff it has attributes, then `"children"` iff it has children. |
| CodeMirrorSerializer.AttrsOneEach | SimpleSchemaParser/CodeMirrorSchemaInfoSerializer.cs:81-92 | `"attrs"` holds exactly one member per attribute, keyed by its name string. |
| CodeMirrorSerializer.AttrsKeysSorted | SimpleSchemaParser/CodeMirrorSchemaInfoSerializer.cs:81 | The `"attrs"` keys are in `OrderByQualifiedName` order. |
| CodeMirrorSerializer.AttrsKeysDistinct | SimpleSchemaParser/CodeMirrorSchemaInfoSerializer.cs:81-82 | Attributes of a valid element give distinct `"attrs"` keys. |
| CodeMirrorSerializer.AttributeValue | SimpleSchemaParser/CodeMirrorSchemaInfoSerializer.cs:83-91 | An attribute's value is null iff it has no possible values. Otherwise it is an array with one item per value. |
| CodeMirrorSerializer.AttributeValueLists | SimpleSchemaParser/CodeMirrorSchemaInfoSerializer.cs:86-90 | A non-null value holds only strings, each a possible value, and every possible value is present. |
| CodeMirrorSerializer.AttributeValueSorted | SimpleSchemaParser/CodeMirrorSchemaInfoSerializer.cs:87 | The values are ordered by the case-insensitive comparer. |
| CodeMirrorSerializer.AttributeValueOnce | SimpleSchemaParser/CodeMirrorSchemaInfoSerializer.cs:87-89 | Each possible value of a valid attribute appears once. |
| CodeMirrorSerializer.ChildItems | SimpleSchemaParser/CodeMirrorSchemaInfoSerializer.cs:98-100 | One string item per child. |
| CodeMirrorSerializer.ChildItemsOneEach | SimpleSchemaParser/CodeMirrorSchemaInfoSerializer.cs:98-100 | `"children"` holds every child's name string and nothing else, one item per child. |
| CodeMirrorSerializer.ChildItemsOrdered | SimpleSchemaParser/CodeMirrorSchemaInfoSerializer.cs:98 | The children are in strictly increasing ordinal order, so no name appears twice. |
| CodeMirrorSerializer.ChildItemsCanonical | SimpleSchemaParser/CodeMirrorSchemaInfoSerializer.cs:98 | `"children"` depends only on the set of children, not on the order they were added in. |
| CodeMirrorSerializer.PrettyChangesOnlyWhitespace | SimpleSchemaParser/CodeMirrorSchemaInfoSerializer.cs:51 | Both settings of `Pretty` write the same calls, which read back as the same object. The two outputs line up piece by piece and differ only in spaces and line breaks. |
| JsonWriter.ParseTokensRoundTrip | SimpleSchemaParser/CodeMirrorSchemaInfoSerializer.cs:52-57 | The writer calls for a value read back as that value, whatever follows them. |
| JsonWriter.LayoutKeepsTokens | SimpleSchemaParser/CodeMirrorSchemaInfoSerializer.cs:51 | Either layout writes every call, in order, and nothing else in place of a call. |
| JsonWriter.LayoutsDifferOnlyInWhitespace | SimpleSchemaParser/CodeMirrorSchemaInfoSerializer.cs:51 | The indented and compact layouts line up piece by piece, with separators equal up to whitespace. |
| JsonWriter.SeparatorOnlyAddsWhitespace | SimpleSchemaParser/CodeMirrorSchemaInfoSerializer.cs:51 | An indented separator is the compact one with whitespace added. |

## Left out

- `Compile` (SimpleSchemaParser/SchemaParser.cs:44-56) loads and compiles the schema through `XmlSchemaSet`, which means file I/O and a library outside this model. The compiled set is an input (`Schema.SchemaSet`). `Compiled` states what a successful compile guarantees: references resolve, and global element and attribute-use names are distinct. A call before `Compile` is modelled as `GetXmlElements(None)`.
- Logging (`log.WriteLine`, `Indent`) and `GetParticleDesc`: diagnostics with no effect on results.
- `ParseGroupRef` (SimpleSchemaParser/SchemaParser.cs:184-189) is never called.
- The `Logger` and `TargetNamespace` properties and the constructor's schema path only feed `Compile` and logging.
- The parser's `elements` dictionary is an instance field, so a second `GetXmlElements` call on the same parser would start with the first call's elements. The model covers one call on a fresh parser, which is how the program uses it.
- `Program.cs`: argument handling, console output and exit codes.
- `SimpleXmlBase`: only the immutable `Name`, folded into both datatypes.
- Lazy `IEnumerable`/`yield`: every expansion is consumed completely by one `foreach`, so the walker is computed eagerly with the processed set threaded through. Errors become `Err` values instead of exceptions.
- Null checks on `Attributes`, `Children`, `PossibleValues` and the attribute type: the collections are never null, and an absent attribute type is `None`.
- The exact text `JsonTextWriter` produces is not modelled: string escaping and the bytes of each token's text are left out. The output is a sequence of writer calls separated by gaps. The gap text follows Newtonsoft's indentation rules (two spaces per level, `": "` after a name), but only its relation to the compact gap is proved. A line break is written as `"\n"`, while the writer emits `Environment.NewLine`, which is `"\r\n"` on Windows.
- The culture-sensitive comparers (the default comparer and `InvariantCultureIgnoreCase`) depend on collation tables. They are parameters, and every ordering fact assumes only a total preorder.
- `XName` atomisation and namespace interning are not modelled: names are compared as (local name, namespace) pairs.
- CodeMirrorSerializer.TopArrayListsTopLevel: gives the order of `"!top"` only up to ties of the culture comparer. Which of two culture-equal name strings comes first follows input order (stability, `Extensions.OrderByQualifiedNameSorted`) and is not restated here.
- CodeMirrorSerializer.AttributeValueSorted: likewise, gives the order of values only up to ties of the case-insensitive comparer. Values equal up to case keep the order in which the facets listed them.

**Facts of the code the model follows**:

- Only `"children"` is sorted ordinally (`StringComparer.Ordinal`). `"!top"`, the element keys and the attribute keys are all sorted by `OrderByQualifiedName`, which uses the default culture comparer. Attribute values use `InvariantCultureIgnoreCase`.
- The positional top-level rule flags an element while fewer than N elements exist, where N is the number of global declarations. It never misclassifies. The global declarations are dequeued first and have distinct names, so each makes a new element and exactly the first N elements are top level (`BreadthFirst.GlobalIsFresh`, `SchemaParser.GetXmlElements`).
- A group reference is expanded only when it is an element's content particle. A group reference nested among a group's items reaches the `default` branch and raises `NotImplementedException`, which the model represents as `NotImplemented("XmlSchemaGroupRef")`.
- The processed set of `ParseGroupBaseInternal` is never shrunk, so a group reached twice within one expansion, through a cycle or as two siblings, contributes its elements only once.
