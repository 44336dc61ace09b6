/**
 * The per-declaration half of `SchemaParser`: `ParseAttribute` and `ParseElement`,
 * which build one attribute and one element from the compiled schema.
 */
module ElementParser {
  import opened Outcomes
  import opened Collections
  import opened XNames
  import opened Schema
  import opened SimpleXml
  import opened Extensions
  import opened ParticleWalker

  // ----- Attributes -----

  /** The values of the enumeration facets, in facet order. */
  function EnumerationValues(facets: seq<Facet>): (r: seq<string>)
    ensures forall v :: v in r <==> EnumerationFacet(v) in facets
  {
    if facets == [] then []
    else
      assert facets == [facets[0]] + facets[1..];
      (if facets[0].EnumerationFacet? then [facets[0].value] else []) + EnumerationValues(facets[1..])
  }

  /**
   * `ParseAttribute`: the attribute's possible values are exactly its enumeration
   * facets' values when its type is a restriction, and there are none otherwise.
   */
  function ParseAttribute(u: AttributeDecl): (a: Attribute)
    ensures a.name == ToXName(u.qualifiedName)
    ensures ValidAttribute(a)
    ensures forall v :: v in a.possibleValues <==>
              (u.attributeSchemaType.Some? && u.attributeSchemaType.value.Restriction? &&
               EnumerationFacet(v) in u.attributeSchemaType.value.facets)
  {
    var attribute := NewAttribute(ToXName(u.qualifiedName));
    match u.attributeSchemaType
    case Some(Restriction(facets)) =>
      var r := AddPossibleValues(attribute, EnumerationValues(facets));
      assert forall v :: v in r.possibleValues <==> v in ToSet(r.possibleValues);
      r
    case _ => attribute
  }

  /** The attributes of the attribute uses, in use order. */
  function ParseAttributes(uses: seq<AttributeDecl>): (r: seq<Attribute>)
    ensures |r| == |uses| && forall i :: 0 <= i < |uses| ==> r[i] == ParseAttribute(uses[i])
  {
    seq(|uses|, i requires 0 <= i < |uses| => ParseAttribute(uses[i]))
  }

  /** Attribute uses with distinct names give valid attributes with distinct names. */
  lemma {:induction false} ParseAttributesDistinct(uses: seq<AttributeDecl>)
    requires AttributeUsesDistinct(uses)
    ensures NoDuplicates(AttributeNames(ParseAttributes(uses)))
    ensures forall i :: 0 <= i < |uses| ==> ValidAttribute(ParseAttributes(uses)[i])
  {
    var attrs := ParseAttributes(uses);
    forall i, j | 0 <= i < j < |attrs| ensures AttributeNames(attrs)[i] != AttributeNames(attrs)[j] {
      assert uses[i].qualifiedName != uses[j].qualifiedName;
    }
  }

  /** If `done + attrs` has distinct names, the first of `attrs` is not named in `done`. */
  lemma {:induction false} FirstNameNew(done: seq<Attribute>, attrs: seq<Attribute>)
    requires attrs != [] && NoDuplicates(AttributeNames(done + attrs))
    ensures attrs[0].name !in ToSet(AttributeNames(done))
  {
    var all := AttributeNames(done + attrs);
    forall i | 0 <= i < |done| ensures AttributeNames(done)[i] != attrs[0].name {
      assert all[i] == done[i].name && all[|done|] == attrs[0].name;
    }
  }

  /** The first loop of `ParseElement`: `AddAttribute` for each attribute in turn. Nothing but the attributes changes. */
  function AddAttributes(e: Element, attrs: seq<Attribute>): (r: Element)
    ensures r.name == e.name && r.isTopLevel == e.isTopLevel && r.children == e.children
    decreases |attrs|
  {
    if attrs == [] then e else AddAttributes(AddAttribute(e, attrs[0]).1, attrs[1..])
  }

  /**
   * When no two of the element's attributes and `attrs` share a name, `AddAttribute`
   * accepts every one of `attrs`, so they end up appended in order.
   */
  lemma {:induction false} AddAttributesAppends(e: Element, attrs: seq<Attribute>)
    requires NoDuplicates(AttributeNames(e.attributes + attrs))
    ensures AddAttributes(e, attrs).attributes == e.attributes + attrs
    decreases |attrs|
  {
    if attrs != [] {
      var next := AddAttribute(e, attrs[0]).1;
      FirstNameNew(e.attributes, attrs);
      assert next.attributes + attrs[1..] == e.attributes + attrs;
      AddAttributesAppends(next, attrs[1..]);
    }
  }

  // ----- Elements -----

  /** The element name a declaration gives. */
  function DeclName(s: SchemaSet, d: DeclId): XName
    requires d in s.elements
  {
    ToXName(s.elements[d].qualifiedName)
  }

  /** The names of the declarations `ds`. */
  function DeclNames(s: SchemaSet, ds: seq<DeclId>): set<XName>
    requires forall i :: 0 <= i < |ds| ==> ds[i] in s.elements
  {
    set i | 0 <= i < |ds| :: DeclName(s, ds[i])
  }

  /** The loop of `ParseElement` that adds each yielded element's name to `Children`. */
  function AddChildren(s: SchemaSet, e: Element, ds: seq<DeclId>): (r: Element)
    requires forall i :: 0 <= i < |ds| ==> ds[i] in s.elements
    ensures ToSet(r.children) == ToSet(e.children) + DeclNames(s, ds)
    ensures r.name == e.name && r.isTopLevel == e.isTopLevel && r.attributes == e.attributes
    ensures ValidElement(e) ==> ValidElement(r)
    decreases |ds|
  {
    if ds == [] then e
    else
      var r := AddChildren(s, AddChild(e, DeclName(s, ds[0])).1, ds[1..]);
      assert forall i :: 0 < i < |ds| ==> ds[1..][i - 1] == ds[i];
      assert DeclNames(s, ds) == {DeclName(s, ds[0])} + DeclNames(s, ds[1..]) by {
        forall x | x in DeclNames(s, ds) ensures x in {DeclName(s, ds[0])} + DeclNames(s, ds[1..]) {
          var i :| 0 <= i < |ds| && x == DeclName(s, ds[i]);
          if i > 0 {
            assert x == DeclName(s, ds[1..][i - 1]);
          }
        }
      }
      r
  }

  /**
   * The content-particle `switch` of `ParseElement`: a group or a reference to one is
   * expanded by the walker; no particle, or the empty particle, yields nothing; any
   * other particle class raises `NotImplementedException`.
   */
  function ParseContent(s: SchemaSet, p: Particle): (r: Result<seq<DeclId>, ParseError>)
    requires Compiled(s) && ParticleResolves(s, p)
    ensures r.Ok? ==> forall i :: 0 <= i < |r.value| ==> r.value[i] in s.elements
    ensures p.NoParticle? ==> r == Ok([])
    ensures p.OtherParticle? ==> (r.Ok? <==> p.typeName == "EmptyParticle")
    ensures p.OtherParticle? && r.Ok? ==> r.value == []
    ensures p.OtherParticle? && r.Err? ==> r.error == NotImplemented(p.typeName)
  {
    match p
    case NoParticle => Ok([])
    case GroupBase(g) =>
      var w :- ParseGroupBase(s, g);
      Ok(w.found)
    case GroupRef(g) =>
      var w :- ParseGroupBase(s, g);
      Ok(w.found)
    case OtherParticle(typeName) =>
      if typeName != "EmptyParticle" then Err(NotImplemented(typeName)) else Ok([])
  }

  /**
   * The children a group or group-reference content particle yields: the element items
   * of exactly the groups reachable from it, each group counted once; and the expansion
   * fails exactly when some reachable group holds an unsupported item.
   */
  lemma {:induction false} ParseContentExpandsReachable(s: SchemaSet, p: Particle)
    requires Compiled(s) && ParticleResolves(s, p) && (p.GroupBase? || p.GroupRef?)
    ensures ParseContent(s, p).Ok? <==> forall h :: h in s.groups && Reaches(s, p.group, h) ==> Supported(s.groups[h])
    ensures ParseContent(s, p).Ok? ==>
              exists expanded: set<GroupId> ::
                && (forall h :: h in expanded <==> Reaches(s, p.group, h))
                && multiset(ParseContent(s, p).value) == GroupSum(s, expanded)
  {
    ParseGroupBaseExpandsReachable(s, p.group);
    if ParseContent(s, p).Ok? {
      var expanded := ParseGroupBase(s, p.group).value.processed;
      assert multiset(ParseContent(s, p).value) == GroupSum(s, expanded);
    }
  }

  /** A parsed element and the element declarations it yielded for the queue. */
  datatype Parsed = Parsed(element: Element, yielded: seq<DeclId>)

  /**
   * `ParseElement`: the element named after the declaration, with the given top-level
   * flag. A simple type gives no attributes and no children. A complex type gives one
   * attribute per attribute use, in order, and as children exactly the names of the
   * element particles its content yields, which are also handed back for the queue.
   */
  function ParseElement(s: SchemaSet, d: DeclId, isTopLevel: bool): (r: Result<Parsed, ParseError>)
    requires Compiled(s) && d in s.elements
    ensures r.Ok? ==>
              && r.value.element.name == DeclName(s, d)
              && r.value.element.isTopLevel == isTopLevel
              && ValidElement(r.value.element)
              && (forall i :: 0 <= i < |r.value.yielded| ==> r.value.yielded[i] in s.elements)
              && ToSet(r.value.element.children) == DeclNames(s, r.value.yielded)
    ensures s.elements[d].elementSchemaType.SimpleType? ==>
              r.Ok? && r.value.element.attributes == [] && r.value.element.children == [] && r.value.yielded == []
  {
    var decl := s.elements[d];
    assert DeclResolves(s, decl);
    var element := NewElement(ToXName(decl.qualifiedName), isTopLevel);
    match decl.elementSchemaType
    case SimpleType => Ok(Parsed(element, []))
    case ComplexType(uses, p) =>
      ParseAttributesDistinct(uses);
      var attrs := ParseAttributes(uses);
      assert element.attributes + attrs == attrs;
      AddAttributesAppends(element, attrs);
      var withAttributes := AddAttributes(element, attrs);
      var yielded :- ParseContent(s, p);
      Ok(Parsed(AddChildren(s, withAttributes, yielded), yielded))
  }

  /**
   * For a complex type: one attribute per attribute use, in order; the element parses
   * exactly when its content particle does, yields what the content yields, and fails
   * with the content's error.
   */
  lemma {:induction false} ParseElementComplex(s: SchemaSet, d: DeclId, isTopLevel: bool)
    requires Compiled(s) && d in s.elements && s.elements[d].elementSchemaType.ComplexType?
    ensures var uses, p := s.elements[d].elementSchemaType.attributeUses, s.elements[d].elementSchemaType.contentTypeParticle;
            var r := ParseElement(s, d, isTopLevel);
            && ParticleResolves(s, p)
            && (r.Ok? <==> ParseContent(s, p).Ok?)
            && (r.Ok? ==> r.value.yielded == ParseContent(s, p).value)
            && (r.Ok? ==> r.value.element.attributes == ParseAttributes(uses))
            && (r.Err? ==> r.error == ParseContent(s, p).error)
  {
    var uses := s.elements[d].elementSchemaType.attributeUses;
    var element := NewElement(DeclName(s, d), isTopLevel);
    assert DeclResolves(s, s.elements[d]);
    ParseAttributesDistinct(uses);
    assert element.attributes + ParseAttributes(uses) == ParseAttributes(uses);
    AddAttributesAppends(element, ParseAttributes(uses));
  }
}
