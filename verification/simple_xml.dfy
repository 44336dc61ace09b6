/**
 * The simplified graph model: `SimpleXmlAttribute` and `SimpleXmlElement`.
 *
 * The source keeps possible values and children in hash sets and attributes in a
 * dictionary; all three are only ever added to, so they enumerate in insertion order.
 * The model keeps that order as a sequence without duplicates. The set (or map) the
 * source means is its `ToSet` (or `AttributeMap`).
 */
module SimpleXml {
  import opened Collections
  import opened XNames

  /** `SimpleXmlAttribute`: a name and the values the attribute may take. */
  datatype Attribute = Attribute(name: XName, possibleValues: seq<string>)

  /**
   * `SimpleXmlElement`: a name, whether it is a top-level (document root) candidate,
   * its attributes in insertion order, and the names of its direct children.
   */
  datatype Element = Element(name: XName, isTopLevel: bool, attributes: seq<Attribute>, children: seq<XName>)

  /** The invariant the hash set keeps: no possible value is stored twice. */
  predicate ValidAttribute(a: Attribute) {
    NoDuplicates(a.possibleValues)
  }

  /** `new SimpleXmlAttribute(name)`. */
  function NewAttribute(name: XName): (a: Attribute)
    ensures a.name == name && ToSet(a.possibleValues) == {} && ValidAttribute(a)
  {
    Attribute(name, [])
  }

  /** `AddPossibleValue(v)`: `HashSet.Add`, reporting whether `v` was new. */
  function AddPossibleValue(a: Attribute, v: string): (r: (bool, Attribute))
    ensures r.0 <==> v !in ToSet(a.possibleValues)
    ensures ToSet(r.1.possibleValues) == ToSet(a.possibleValues) + {v}
    ensures r.1.name == a.name
    ensures ValidAttribute(a) ==> ValidAttribute(r.1)
    ensures !r.0 ==> r.1 == a
  {
    if v in a.possibleValues then (false, a)
    else (true, a.(possibleValues := a.possibleValues + [v]))
  }

  /** Adding a value a second time reports false and changes nothing. */
  lemma {:induction false} AddPossibleValueIdempotent(a: Attribute, v: string)
    ensures var once := AddPossibleValue(a, v).1;
            AddPossibleValue(once, v) == (false, once)
  {
    var once := AddPossibleValue(a, v).1;
    assert v in ToSet(once.possibleValues);
  }

  /** Adds each of `vs` in turn, as the attribute parser does with enumeration facets. */
  function AddPossibleValues(a: Attribute, vs: seq<string>): (r: Attribute)
    ensures r.name == a.name
    ensures ToSet(r.possibleValues) == ToSet(a.possibleValues) + ToSet(vs)
    ensures ValidAttribute(a) ==> ValidAttribute(r)
    decreases |vs|
  {
    if vs == [] then a
    else
      assert ToSet(vs) == {vs[0]} + ToSet(vs[1..]);
      AddPossibleValues(AddPossibleValue(a, vs[0]).1, vs[1..])
  }

  /** The attribute names in insertion order. */
  function AttributeNames(attrs: seq<Attribute>): (r: seq<XName>)
    ensures |r| == |attrs| && forall i :: 0 <= i < |attrs| ==> r[i] == attrs[i].name
  {
    if attrs == [] then [] else AttributeNames(attrs[..|attrs| - 1]) + [attrs[|attrs| - 1].name]
  }

  /**
   * The dictionary a sequence of `AddAttribute` calls builds: the first attribute
   * with a given name is the one kept.
   */
  function AttributeMap(attrs: seq<Attribute>): (m: map<XName, Attribute>)
    ensures m.Keys == ToSet(AttributeNames(attrs))
  {
    if attrs == [] then map[]
    else
      var m := AttributeMap(attrs[..|attrs| - 1]);
      var a := attrs[|attrs| - 1];
      assert attrs[..|attrs| - 1] + [a] == attrs;
      if a.name in m then m else m[a.name := a]
  }

  /** The invariants of an element: attribute names, values and children unique. */
  predicate ValidElement(e: Element) {
    && NoDuplicates(AttributeNames(e.attributes))
    && (forall i :: 0 <= i < |e.attributes| ==> ValidAttribute(e.attributes[i]))
    && NoDuplicates(e.children)
  }

  /** `new SimpleXmlElement(name, isTopLevelElement)`. */
  function NewElement(name: XName, isTopLevel: bool): (e: Element)
    ensures e.name == name && e.isTopLevel == isTopLevel
    ensures AttributeMap(e.attributes) == map[] && ToSet(e.children) == {}
    ensures ValidElement(e)
  {
    Element(name, isTopLevel, [], [])
  }

  /**
   * `AddAttribute(a)`: a name already in the dictionary is refused and nothing
   * changes (the first attribute wins); a new name adds exactly that entry.
   */
  function AddAttribute(e: Element, a: Attribute): (r: (bool, Element))
    ensures r.0 <==> a.name !in AttributeMap(e.attributes)
    ensures !r.0 ==> r.1 == e
    ensures r.0 ==> r.1.attributes == e.attributes + [a]
    ensures r.1.name == e.name && r.1.isTopLevel == e.isTopLevel && r.1.children == e.children
    ensures ValidElement(e) && ValidAttribute(a) ==> ValidElement(r.1)
  {
    if a.name in AttributeMap(e.attributes) then (false, e)
    else
      var attrs := e.attributes + [a];
      assert attrs[..|attrs| - 1] == e.attributes;
      (true, e.(attributes := attrs))
  }

  /** A successful `AddAttribute` adds exactly the one dictionary entry and changes no other. */
  lemma {:induction false} AddAttributeUpdatesMap(e: Element, a: Attribute)
    ensures AddAttribute(e, a).0 ==> AttributeMap(AddAttribute(e, a).1.attributes) == AttributeMap(e.attributes)[a.name := a]
  {
    var attrs := e.attributes + [a];
    assert attrs[..|attrs| - 1] == e.attributes;
  }

  /** In a valid element the dictionary holds each stored attribute under its own name. */
  lemma {:induction false} AttributeMapKeyedByName(attrs: seq<Attribute>)
    requires NoDuplicates(AttributeNames(attrs))
    ensures forall i :: 0 <= i < |attrs| ==> AttributeMap(attrs)[attrs[i].name] == attrs[i]
  {
    if attrs != [] {
      var init := attrs[..|attrs| - 1];
      assert NoDuplicates(AttributeNames(init)) by {
        assert forall i :: 0 <= i < |init| ==> AttributeNames(init)[i] == AttributeNames(attrs)[i];
      }
      AttributeMapKeyedByName(init);
      var a := attrs[|attrs| - 1];
      assert a.name !in ToSet(AttributeNames(init)) by {
        forall i | 0 <= i < |init| ensures AttributeNames(init)[i] != a.name {
          assert AttributeNames(attrs)[i] != AttributeNames(attrs)[|attrs| - 1];
        }
      }
    }
  }

  /** `AddChild(name)`: `HashSet.Add`, reporting whether the name was new. */
  function AddChild(e: Element, child: XName): (r: (bool, Element))
    ensures r.0 <==> child !in ToSet(e.children)
    ensures ToSet(r.1.children) == ToSet(e.children) + {child}
    ensures r.1.name == e.name && r.1.isTopLevel == e.isTopLevel && r.1.attributes == e.attributes
    ensures ValidElement(e) ==> ValidElement(r.1)
  {
    if child in e.children then (false, e)
    else (true, e.(children := e.children + [child]))
  }
}
