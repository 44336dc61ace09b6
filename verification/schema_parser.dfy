/**
 * `SchemaParser.GetXmlElements`: the breadth-first traversal over element declarations
 * that materialises each qualified name once, the first declaration dequeued with that
 * name winning.
 */
module SchemaParser {
  import opened Outcomes
  import opened Collections
  import opened XNames
  import opened Schema
  import opened SimpleXml
  import opened Extensions
  import opened ParticleWalker
  import opened ElementParser
  import opened TraversalInvariant
  import opened BreadthFirst

  /**
   * `GetXmlElements`: breadth-first from the global elements, materialising each name
   * once. Besides the elements, the ghost results record every declaration dequeued, in
   * order, and for each element the position in that order of the declaration it was
   * built from.
   *
   * Before `Compile` the call fails. Otherwise, on success: names are unique; exactly
   * the first `|globalElements|` elements, built from the global declarations, are top
   * level; every element is built from the first dequeued declaration with its name;
   * every child name is itself an element; every later element is a child of an
   * earlier one; and the elements are in the order their declarations were dequeued.
   * The order of dequeuing is first-in first-out: the global declarations, then what
   * each dequeued declaration with a new name yields, in the order those declarations
   * were dequeued, and each declaration was enqueued before it was dequeued
   * (`QueueOrder`).
   * On failure (`FirstFailure`) the traversal stopped at the first declaration in that
   * order whose name is new and whose content does not parse; declarations whose name
   * was already dequeued are never parsed. A schema all of whose declarations parse
   * never fails.
   */
  method GetXmlElements(schemaSet: Option<SchemaSet>) returns (r: Result<seq<Element>, ParseError>, ghost dequeued: seq<DeclId>, ghost origin: seq<nat>)
    requires schemaSet.Some? ==> Compiled(schemaSet.value)
    ensures schemaSet.None? ==> r == Err(SchemaNotCompiled)
    ensures schemaSet.Some? && r.Ok? ==>
              var s, es := schemaSet.value, r.value;
              && (forall i, j :: 0 <= i < j < |es| ==> es[i].name != es[j].name)
              && (forall j :: 0 <= j < |es| ==> ValidElement(es[j]))
              && (forall j :: 0 <= j < |es| ==> (es[j].isTopLevel <==> j < |s.globalElements|))
              && |s.globalElements| <= |es|
              && (forall j :: 0 <= j < |s.globalElements| ==>
                    ParseElement(s, s.globalElements[j], true).Ok? &&
                    es[j] == ParseElement(s, s.globalElements[j], true).value.element)
              && (forall c :: c in ChildNames(es) ==> c in ElementNames(es))
              && (forall j :: |s.globalElements| <= j < |es| ==> es[j].name in ChildNames(es[..j]))
    ensures schemaSet.Some? && r.Ok? ==>
              var s, es := schemaSet.value, r.value;
              && |origin| == |es|
              && (forall i, j :: 0 <= i < j < |es| ==> origin[i] < origin[j])
              && (forall j :: 0 <= j < |es| ==>
                    && origin[j] < |dequeued| && dequeued[origin[j]] in s.elements
                    && ParseElement(s, dequeued[origin[j]], j < |s.globalElements|).Ok?
                    && es[j] == ParseElement(s, dequeued[origin[j]], j < |s.globalElements|).value.element)
              && (forall j, k :: 0 <= j < |es| && 0 <= k < origin[j] ==>
                    dequeued[k] in s.elements && DeclName(s, dequeued[k]) != es[j].name)
              && (forall k :: 0 <= k < |dequeued| ==>
                    dequeued[k] in s.elements && DeclName(s, dequeued[k]) in ElementNames(es))
    ensures schemaSet.Some? && r.Ok? ==> QueueOrder(schemaSet.value, dequeued)
    ensures schemaSet.Some? && r.Err? ==> FirstFailure(schemaSet.value, dequeued, r.error)
    ensures schemaSet.Some? && (forall d, e :: d in schemaSet.value.elements ==> !ContentFails(schemaSet.value, d, e)) ==>
              r.Ok?
  {
    if schemaSet.None? {
      return Err(SchemaNotCompiled), [], [];
    }
    var s := schemaSet.value;
    ghost var keys;
    r, keys, dequeued, origin := Traverse(s);
    if r.Ok? {
      TraversalDone(s, dequeued, r.value, keys, origin);
    } else {
      FailureWitness(s, dequeued, r.error);
    }
  }

  /**
   * The branch of the loop of `GetXmlElements` for a dequeued declaration whose name is
   * new: parse it with the positional top-level flag. On success the invariant holds again
   * with the element appended and its yielded declarations enqueued at the back.
   */
  method VisitNew(s: SchemaSet, pending: seq<DeclId>, ghost dequeued: seq<DeclId>, elements: seq<Element>, names: set<XName>, ghost origin: seq<nat>, topLevelCount: nat)
      returns (r: Result<Parsed, ParseError>)
    requires LoopInvariant(s, pending, dequeued, elements, names, origin)
    requires topLevelCount == |s.globalElements|
    requires pending != [] && DeclName(s, pending[0]) !in names
    ensures r.Ok? ==>
              && ParseElement(s, pending[0], |elements| < |s.globalElements|) == r
              && r.value.yielded == DeclYield(s, pending[0])
              && r.value.element.name in Universe(s) - names
              && LoopInvariant(s, pending[1..] + r.value.yielded, dequeued + [pending[0]], elements + [r.value.element],
                           names + {r.value.element.name}, origin + [|dequeued| as nat])
    ensures r.Err? ==> ContentFails(s, pending[0], r.error)
  {
    var isTopLevelElement := |elements| < topLevelCount;
    r := ParseElement(s, pending[0], isTopLevelElement);
    if r.Err? {
      ParseElementFailure(s, pending[0], isTopLevelElement);
    } else {
      TraversalAdd(s, pending, dequeued, elements, names, origin);
      AddKeepsFifo(s, pending, dequeued, elements, names, origin, isTopLevelElement);
      YieldIgnoresFlag(s, pending[0], isTopLevelElement);
    }
  }

  /**
   * One iteration of the loop of `GetXmlElements`: dequeue a declaration; if its name is
   * already materialised, discard it; otherwise hand it to `VisitNew`. The invariant is
   * kept, and the pair (unseen names, queue length) decreases.
   */
  method Visit(s: SchemaSet, pending: seq<DeclId>, ghost dequeued: seq<DeclId>, elements: seq<Element>, names: set<XName>, ghost origin: seq<nat>, topLevelCount: nat)
      returns (r: Result<(), ParseError>, pending': seq<DeclId>, ghost dequeued': seq<DeclId>, elements': seq<Element>, names': set<XName>, ghost origin': seq<nat>)
    requires LoopInvariant(s, pending, dequeued, elements, names, origin)
    requires topLevelCount == |s.globalElements| && pending != []
    ensures dequeued' == dequeued + [pending[0]]
    ensures r.Ok? && DeclName(s, pending[0]) in names ==> pending' == pending[1..] && elements' == elements
    ensures r.Ok? && DeclName(s, pending[0]) !in names ==>
              && pending' == pending[1..] + DeclYield(s, pending[0])
              && ParseElement(s, pending[0], |elements| < |s.globalElements|).Ok?
              && elements' == elements + [ParseElement(s, pending[0], |elements| < |s.globalElements|).value.element]
    ensures r.Ok? ==> LoopInvariant(s, pending', dequeued', elements', names', origin')
    ensures r.Ok? ==> |Universe(s) - names'| < |Universe(s) - names| || (names' == names && |pending'| < |pending|)
    ensures r.Err? ==> FirstFailure(s, dequeued', r.error)
  {
    var schemaElement := pending[0];
    dequeued' := dequeued + [schemaElement];
    if DeclName(s, schemaElement) in names {
      TraversalSkip(s, pending, dequeued, elements, names, origin);
      SkipKeepsFifo(s, pending, dequeued, elements, names, origin);
      return Ok(()), pending[1..], dequeued', elements, names, origin;
    }
    var parsed := VisitNew(s, pending, dequeued, elements, names, origin, topLevelCount);
    if parsed.Err? {
      FailureIsFirst(s, pending, dequeued, elements, names, origin, parsed.error);
      return Err(parsed.error), pending, dequeued', elements, names, origin;
    }
    var element := parsed.value.element;
    UnseenShrinks(Universe(s), names, element.name);
    r := Ok(());
    pending', origin' := pending[1..] + parsed.value.yielded, origin + [|dequeued| as nat];
    elements', names' := elements + [element], names + {element.name};
  }

  /**
   * The work-list loop of `GetXmlElements`: on success the queue has run dry with the
   * traversal invariant intact and the order first-in first-out; on failure it stopped at the first declaration in
   * queue order with a new name whose content did not parse.
   */
  method Traverse(s: SchemaSet) returns (r: Result<seq<Element>, ParseError>, ghost keys: set<XName>, ghost dequeued: seq<DeclId>, ghost origin: seq<nat>)
    requires Compiled(s)
    ensures r.Ok? ==> Traversal(s, [], dequeued, r.value, keys, origin) && QueueOrder(s, dequeued)
    ensures r.Err? ==> FirstFailure(s, dequeued, r.error)
  {
    var pending := s.globalElements;
    var topLevelCount := |pending|;
    var elements: seq<Element> := [];
    var names: set<XName> := {};
    ghost var seen: seq<DeclId> := [];
    ghost var from: seq<nat> := [];
    TraversalStart(s);
    while pending != []
      invariant topLevelCount == |s.globalElements|
      invariant LoopInvariant(s, pending, seen, elements, names, from)
      decreases |Universe(s) - names|, |pending|
    {
      var step;
      step, pending, seen, elements, names, from := Visit(s, pending, seen, elements, names, from, topLevelCount);
      if step.Err? {
        return Err(step.error), names, seen, from;
      }
    }
    QueueDrained(s, seen, elements, names, from);
    return Ok(elements), names, seen, from;
  }

  /**
   * A schema where one name has two declarations: the only global element, `A`, has
   * content yielding declaration 1 and then declaration 2, both named `E`; declaration 1
   * is a simple type. Every declaration parses.
   */
  ghost predicate ShadowedShape(s: SchemaSet) {
    && Compiled(s) && s.globalElements == [0] && s.elements.Keys == {0, 1, 2}
    && DeclName(s, 0) == XName("A", "") && DeclName(s, 1) == XName("E", "") && DeclName(s, 2) == XName("E", "")
    && s.elements[1].elementSchemaType.SimpleType?
    && DeclYield(s, 0) == [1, 2]
  }

  /**
   * An instance of `ShadowedShape`, where the second `E` is a complex type with an
   * attribute `x`, so the two `E` declarations build different elements.
   */
  function ShadowedNameSchema(): SchemaSet {
    var a := ElementDecl(XmlQualifiedName("A", ""), ComplexType([], GroupBase(0)));
    var e1 := ElementDecl(XmlQualifiedName("E", ""), SimpleType);
    var e2 := ElementDecl(XmlQualifiedName("E", ""), ComplexType([AttributeDecl(XmlQualifiedName("x", ""), None)], NoParticle));
    SchemaSet([0], map[0 := a, 1 := e1, 2 := e2], map[0 := [ElementItem(1), ElementItem(2)]])
  }

  /** `ShadowedNameSchema` compiles. */
  lemma {:induction false} ShadowedNameCompiles()
    ensures Compiled(ShadowedNameSchema())
  {
    var s := ShadowedNameSchema();
    assert IsNcName("A") && IsNcName("E") && IsNcName("x");
    assert DeclResolves(s, s.elements[0]) && DeclResolves(s, s.elements[1]) && DeclResolves(s, s.elements[2]);
  }

  /** In `ShadowedNameSchema`, the content of `A` yields declaration 1 and then declaration 2. */
  lemma {:induction false} ShadowedNameContent()
    requires Compiled(ShadowedNameSchema())
    ensures ParseContent(ShadowedNameSchema(), GroupBase(0)) == Ok([1, 2])
  {
    var s := ShadowedNameSchema();
    var items := [ElementItem(1), ElementItem(2)];
    assert items[1..] == [ElementItem(2)] && items[1..][1..] == [];
    var last := ParseItems(s, items[1..][1..], {0});
    assert last == Ok(Walk([], {0}));
    var second := ParseItems(s, items[1..], {0});
    assert second == Ok(Walk([2] + last.value.found, {0}));
    var first := ParseItems(s, items, {0});
    assert first == Ok(Walk([1] + second.value.found, {0}));
    assert s.groups[0] == items && {} + {0} == {0};
    assert ParseGroupBaseInternal(s, 0, {}) == first;
    assert ParseGroupBase(s, 0) == first;
    assert first.value.found == [1, 2];
  }

  /**
   * `ShadowedNameSchema` has the shape `ShadowedShape` names, every declaration in it
   * parses, and its second `E` declaration would build an element with an attribute.
   */
  lemma {:induction false} ShadowedNameSchemaFacts()
    ensures ShadowedShape(ShadowedNameSchema())
    ensures forall d, err :: d in ShadowedNameSchema().elements ==> !ContentFails(ShadowedNameSchema(), d, err)
    ensures ParseElement(ShadowedNameSchema(), 2, false).Ok?
    ensures ParseElement(ShadowedNameSchema(), 2, false).value.element.attributes != []
  {
    var s := ShadowedNameSchema();
    ShadowedNameCompiles();
    ShadowedNameContent();
    ParseElementComplex(s, 2, false);
  }

  /** In any first-in first-out order for a `ShadowedShape` schema, `A` comes first and the two `E` declarations next. */
  lemma {:induction false} ShadowedNameOrder(s: SchemaSet, dequeued: seq<DeclId>)
    requires ShadowedShape(s)
    requires forall k :: 0 <= k < |dequeued| ==> dequeued[k] in s.elements
    requires dequeued == s.globalElements + Expand(s, dequeued)
    ensures |dequeued| >= 3 && dequeued[..3] == [0, 1, 2]
  {
    assert dequeued + [] == dequeued;
    assert dequeued[0] == 0;
    FifoPrefix(s, dequeued, 1);
    assert dequeued[..1] == [0];
    ShadowedNameFirstTwo(s);
    assert [0] + [1, 2] <= dequeued;
  }

  /** In a `ShadowedShape` schema neither `A` nor the first `E` has failing content, and dequeuing `A` enqueues both `E` declarations. */
  lemma {:induction false} ShadowedNameFirstTwo(s: SchemaSet)
    requires ShadowedShape(s)
    ensures forall e :: !ContentFails(s, 0, e) && !ContentFails(s, 1, e)
    ensures Expand(s, [0]) == [1, 2]
  {
    assert [0][..0] == [] && DeclNames(s, []) == {};
    assert s.elements[0].elementSchemaType.ComplexType?;
  }

  /** A start of the first-in first-out order for a `ShadowedShape` schema begins with `A` and then the first `E`. */
  lemma {:induction false} ShadowedQueueStart(s: SchemaSet, ds: seq<DeclId>)
    requires ShadowedShape(s)
    requires |ds| > 0 && forall k :: 0 <= k < |ds| ==> ds[k] in s.elements
    requires ds <= s.globalElements + Expand(s, ds[..|ds| - 1])
    ensures ds[0] == 0
    ensures |ds| >= 2 ==> ds[1] == 1
  {
    var init := ds[..|ds| - 1];
    ShadowedNameFirstTwo(s);
    if |ds| >= 2 {
      ExpandPrefix(s, init, 1);
      assert init[..1] == [0];
      assert ds[1] == ([0] + Expand(s, init))[1];
    }
  }

  /**
   * On a `ShadowedShape` schema the traversal cannot fail, whatever the content of the
   * second `E` declaration: by the time it is dequeued its name is already taken, so it
   * is never parsed.
   */
  lemma {:induction false} ShadowedNameNeverFails(s: SchemaSet, dequeued: seq<DeclId>, e: ParseError)
    requires ShadowedShape(s)
    ensures !FirstFailure(s, dequeued, e)
  {
    if FirstFailure(s, dequeued, e) {
      var n := |dequeued| - 1;
      ShadowedNameFirstTwo(s);
      ShadowedQueueStart(s, dequeued);
      if n >= 2 {
        NameInPrefix(s, dequeued, 0, n);
        NameInPrefix(s, dequeued, 1, n);
      }
      assert false;
    }
  }

  /**
   * What the success contract of `GetXmlElements` leaves for a `ShadowedShape` schema,
   * in names: when the dequeuing order starts with `A` and the two `E` declarations, the
   * elements start with `A` and an `E` built from declaration 1, the first `E` dequeued.
   */
  lemma {:induction false} ShadowedNameOutcome(s: SchemaSet, es: seq<Element>, dequeued: seq<DeclId>, origin: seq<nat>)
    requires ShadowedShape(s)
    requires forall k :: 0 <= k < |dequeued| ==>
               dequeued[k] in s.elements && DeclName(s, dequeued[k]) in ElementNames(es)
    requires |dequeued| >= 3 && dequeued[..3] == [0, 1, 2]
    requires |es| >= 1 && es[0].name == XName("A", "")
    requires forall i, j :: 0 <= i < j < |es| ==> es[i].name != es[j].name
    requires |origin| == |es|
    requires forall j :: 0 <= j < |es| ==>
               origin[j] < |dequeued| && dequeued[origin[j]] in s.elements && es[j].name == DeclName(s, dequeued[origin[j]])
    requires forall j, k :: 0 <= j < |es| && 0 <= k < origin[j] ==>
               dequeued[k] in s.elements && DeclName(s, dequeued[k]) != es[j].name
    ensures |es| >= 2 && es[0].name == XName("A", "") && es[1].name == XName("E", "")
    ensures dequeued[origin[1]] == 1
  {
    var a, e := XName("A", ""), XName("E", "");
    assert dequeued[0] == dequeued[..3][0] == 0 && dequeued[1] == dequeued[..3][1] == 1;
    assert DeclName(s, dequeued[0]) == a && DeclName(s, dequeued[1]) == e;
    assert forall d :: d in s.elements ==> DeclName(s, d) == a || DeclName(s, d) == e;
    var j :| 0 <= j < |es| && es[j].name == e;
    assert origin[0] == 0;
    assert es[1].name == e;
    assert origin[1] == 1;
  }

  /**
   * `GetXmlElements` on a `ShadowedShape` schema succeeds; the dequeuing order starts
   * with `A` and the two `E` declarations, `A` is the first element, and every element
   * is named after the first declaration dequeued with its name.
   */
  method ShadowedNameRun(s: SchemaSet) returns (r: Result<seq<Element>, ParseError>, ghost dequeued: seq<DeclId>, ghost origin: seq<nat>)
    requires ShadowedShape(s)
    ensures r.Ok?
    ensures r.Ok? ==>
              var es := r.value;
              && (forall k :: 0 <= k < |dequeued| ==>
                    dequeued[k] in s.elements && DeclName(s, dequeued[k]) in ElementNames(es))
              && |dequeued| >= 3 && dequeued[..3] == [0, 1, 2]
              && |es| >= 1 && es[0].name == XName("A", "")
              && (forall i, j :: 0 <= i < j < |es| ==> es[i].name != es[j].name)
              && |origin| == |es|
              && (forall j :: 0 <= j < |es| ==>
                    && origin[j] < |dequeued| && dequeued[origin[j]] in s.elements
                    && es[j].name == DeclName(s, dequeued[origin[j]])
                    && ParseElement(s, dequeued[origin[j]], j < |s.globalElements|).Ok?
                    && es[j] == ParseElement(s, dequeued[origin[j]], j < |s.globalElements|).value.element)
              && (forall j, k :: 0 <= j < |es| && 0 <= k < origin[j] ==>
                    dequeued[k] in s.elements && DeclName(s, dequeued[k]) != es[j].name)
  {
    r, dequeued, origin := GetXmlElements(Some(s));
    if r.Err? {
      ShadowedNameNeverFails(s, dequeued, r.error);
    } else {
      ShadowedNameOrder(s, dequeued);
      assert r.value[0] == ParseElement(s, s.globalElements[0], true).value.element;
    }
  }

  /**
   * On a `ShadowedShape` schema the traversal succeeds, whatever the second `E`
   * declaration holds; it lists `A` first and `E` next, and `E` is built from the first
   * declaration dequeued with that name: the simple-type one, so it has no attributes.
   */
  method ShadowedNameExample(s: SchemaSet) returns (r: Result<seq<Element>, ParseError>)
    requires ShadowedShape(s)
    ensures r.Ok?
    ensures r.Ok? ==> |r.value| >= 2 && r.value[0].name == XName("A", "") && r.value[1].name == XName("E", "")
    ensures r.Ok? ==> r.value[1] == ParseElement(s, 1, false).value.element
    ensures r.Ok? ==> r.value[1].attributes == []
  {
    ghost var dequeued, origin;
    r, dequeued, origin := ShadowedNameRun(s);
    if r.Ok? {
      ShadowedNameOutcome(s, r.value, dequeued, origin);
      assert r.value[1] == ParseElement(s, dequeued[origin[1]], 1 < |s.globalElements|).value.element;
    }
  }

  /**
   * A schema whose only global element, `A` (declaration 0), is a simple type: dequeuing
   * it enqueues nothing, so no other declaration is ever dequeued, whatever the other
   * declarations hold.
   */
  ghost predicate SimpleRootShape(s: SchemaSet) {
    && Compiled(s) && s.globalElements == [0] && 0 in s.elements
    && s.elements[0].elementSchemaType.SimpleType?
  }

  /** In a `SimpleRootShape` schema, dequeuing `A` enqueues nothing and `A` cannot fail. */
  lemma {:induction false} SimpleRootEnqueuesNothing(s: SchemaSet)
    requires SimpleRootShape(s)
    ensures Expand(s, [0]) == []
    ensures forall e :: !ContentFails(s, 0, e)
  {
    assert [0][..0] == [];
  }

  /**
   * A start of the queue order of a `SimpleRootShape` schema whose every declaration was
   * enqueued before it was dequeued is `A` alone.
   */
  lemma {:induction false} SimpleRootQueue(s: SchemaSet, ds: seq<DeclId>)
    requires SimpleRootShape(s)
    requires |ds| > 0 && forall k :: 0 <= k < |ds| ==> ds[k] in s.elements
    requires ds <= s.globalElements + Expand(s, ds[..|ds| - 1]) && Causal(s, ds)
    ensures ds == [0]
  {
    SimpleRootEnqueuesNothing(s);
    assert ds[0] == 0;
    if |ds| >= 2 {
      SimpleRootSecond(s, ds);
      assert false;
    }
  }

  /** Dequeuing `A` first leaves nothing enqueued for a second declaration. */
  lemma {:induction false} SimpleRootSecond(s: SchemaSet, ds: seq<DeclId>)
    requires SimpleRootShape(s)
    requires |ds| >= 2 && ds[0] == 0 && forall k :: 0 <= k < |ds| ==> ds[k] in s.elements
    ensures forall k :: 0 <= k < |ds[..1]| ==> ds[..1][k] in s.elements
    ensures Expand(s, ds[..1]) == []
  {
    assert ds[..1] == [0];
    SimpleRootEnqueuesNothing(s);
  }

  /**
   * On a `SimpleRootShape` schema the traversal cannot fail, however the other
   * declarations would fail: none of them is ever enqueued.
   */
  lemma {:induction false} SimpleRootNeverFails(s: SchemaSet, dequeued: seq<DeclId>, e: ParseError)
    requires SimpleRootShape(s)
    ensures !FirstFailure(s, dequeued, e)
  {
    if FirstFailure(s, dequeued, e) {
      SimpleRootEnqueuesNothing(s);
      SimpleRootQueue(s, dequeued);
      assert false;
    }
  }

  /**
   * An instance of `SimpleRootShape` where the other declarations enqueue each other:
   * `X` (declaration 1) yields itself and `Y` (declaration 2), whose content is a group
   * reference and fails. Were `X` dequeued, it would enqueue itself and then `Y`.
   */
  function SimpleRootSchema(): SchemaSet {
    var a := ElementDecl(XmlQualifiedName("A", ""), SimpleType);
    var x := ElementDecl(XmlQualifiedName("X", ""), ComplexType([], GroupBase(0)));
    var y := ElementDecl(XmlQualifiedName("Y", ""), ComplexType([], GroupBase(1)));
    SchemaSet([0], map[0 := a, 1 := x, 2 := y], map[0 := [ElementItem(1), ElementItem(2)], 1 := [GroupRefItem(0)]])
  }

  /** `SimpleRootSchema` compiles and has the shape `SimpleRootShape` names. */
  lemma {:induction false} SimpleRootCompiles()
    ensures SimpleRootShape(SimpleRootSchema())
  {
    var s := SimpleRootSchema();
    assert IsNcName("A") && IsNcName("X") && IsNcName("Y");
    assert DeclResolves(s, s.elements[0]) && DeclResolves(s, s.elements[1]) && DeclResolves(s, s.elements[2]);
  }

  /** In `SimpleRootSchema`, the content of `X` yields `X` itself and then `Y`. */
  lemma {:induction false} SimpleRootContentX()
    requires Compiled(SimpleRootSchema())
    ensures ParseContent(SimpleRootSchema(), GroupBase(0)) == Ok([1, 2])
  {
    var s := SimpleRootSchema();
    var items := [ElementItem(1), ElementItem(2)];
    assert items[1..] == [ElementItem(2)] && items[1..][1..] == [];
    var last := ParseItems(s, items[1..][1..], {0});
    assert last == Ok(Walk([], {0}));
    var second := ParseItems(s, items[1..], {0});
    assert second == Ok(Walk([2] + last.value.found, {0}));
    var first := ParseItems(s, items, {0});
    assert first == Ok(Walk([1] + second.value.found, {0}));
    assert s.groups[0] == items && {} + {0} == {0};
    assert ParseGroupBaseInternal(s, 0, {}) == first;
    assert ParseGroupBase(s, 0) == first;
    assert first.value.found == [1, 2];
  }

  /** In `SimpleRootSchema`, the content of `Y` is a group reference, which fails. */
  lemma {:induction false} SimpleRootContentY()
    requires Compiled(SimpleRootSchema())
    ensures ParseContent(SimpleRootSchema(), GroupBase(1)) == Err(NotImplemented("XmlSchemaGroupRef"))
  {
    var s := SimpleRootSchema();
    var refs := [GroupRefItem(0)];
    assert s.groups[1] == refs && {} + {1} == {1};
    assert ParseItems(s, refs, {1}) == Err(NotImplemented("XmlSchemaGroupRef"));
    assert ParseGroupBaseInternal(s, 1, {}) == Err(NotImplemented("XmlSchemaGroupRef"));
    assert ParseGroupBase(s, 1) == Err(NotImplemented("XmlSchemaGroupRef"));
  }

  /**
   * In `SimpleRootSchema`, `X` yields itself and then `Y`, and the content of `Y` fails.
   * So `[A, X, Y]` is a start of the queue order that only self-enqueuing could produce,
   * and it ends in a failing declaration with a new name.
   */
  lemma {:induction false} SimpleRootSelfEnqueue()
    requires Compiled(SimpleRootSchema())
    ensures DeclYield(SimpleRootSchema(), 1) == [1, 2]
    ensures ContentFails(SimpleRootSchema(), 2, NotImplemented("XmlSchemaGroupRef"))
    ensures [0, 1, 2] == SimpleRootSchema().globalElements + Expand(SimpleRootSchema(), [0, 1])
    ensures !Causal(SimpleRootSchema(), [0, 1, 2])
  {
    var s := SimpleRootSchema();
    SimpleRootContentX();
    SimpleRootContentY();
    SimpleRootEnqueuesNothing(s);
    assert [0, 1][..1] == [0] && DeclNames(s, [0]) == {XName("A", "")};
    assert Expand(s, [0, 1]) == [1, 2];
    assert [0, 1, 2][..1] == [0];
  }

  /**
   * `GetXmlElements` on a `SimpleRootShape` schema succeeds with `A` alone: the queue
   * order is `[A]`, and the only element is the one `A` builds as a top-level element.
   */
  method SimpleRootRun(s: SchemaSet) returns (r: Result<seq<Element>, ParseError>, ghost dequeued: seq<DeclId>)
    requires SimpleRootShape(s)
    ensures dequeued == [0]
    ensures ParseElement(s, 0, true).Ok? && r == Ok([ParseElement(s, 0, true).value.element])
  {
    ghost var origin;
    r, dequeued, origin := GetXmlElements(Some(s));
    if r.Err? {
      SimpleRootNeverFails(s, dequeued, r.error);
      assert false;
    }
    SimpleRootEnqueuesNothing(s);
    SimpleRootQueue(s, dequeued);
    var es := r.value;
    IncreasingAtLeastIndex(origin);
    assert |es| - 1 <= origin[|es| - 1] < |dequeued| == 1;
    assert es == [es[0]];
  }
}
