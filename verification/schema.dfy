/**
 * The compiled schema object model (`XmlSchemaSet` after `Compile`), reduced to what
 * the parser reads. Element declarations and groups are nodes named by ids, so a
 * group may contain itself through other groups and the graph may be cyclic.
 */
module Schema {
  import opened Outcomes
  import opened XNames

  type DeclId = nat
  type GroupId = nat

  /** A facet of a simple-type restriction; only enumeration facets matter. */
  datatype Facet = EnumerationFacet(value: string) | OtherFacet

  /** `XmlSchemaSimpleType.Content`: a restriction with its facets, or a list or union. */
  datatype SimpleTypeContent = Restriction(facets: seq<Facet>) | ListOrUnion

  /** An attribute use: its name and its simple type, `None` when the type is absent. */
  datatype AttributeDecl = AttributeDecl(qualifiedName: XmlQualifiedName, attributeSchemaType: Option<SimpleTypeContent>)

  /**
   * `XmlSchemaComplexType.ContentTypeParticle`: absent, a sequence/choice/all group
   * (`XmlSchemaGroupBase`), a reference to a named group (`XmlSchemaGroupRef`, whose
   * `Particle` is that group), or a particle of some other class, named by its type
   * name (the compiler's empty particle is the class named "EmptyParticle").
   */
  datatype Particle =
    | NoParticle
    | GroupBase(group: GroupId)
    | GroupRef(group: GroupId)
    | OtherParticle(typeName: string)

  /** `ElementSchemaType`: a simple type, or a complex type with attribute uses and content. */
  datatype ElementType =
    | SimpleType
    | ComplexType(attributeUses: seq<AttributeDecl>, contentTypeParticle: Particle)

  datatype ElementDecl = ElementDecl(qualifiedName: XmlQualifiedName, elementSchemaType: ElementType)

  /**
   * An item of a group's `Items`: a nested sequence/choice/all group, an element
   * particle, a wildcard (`xs:any`), a named-group reference, or some other class.
   */
  datatype Item =
    | SubGroup(group: GroupId)
    | ElementItem(decl: DeclId)
    | AnyItem
    | GroupRefItem(group: GroupId)
    | OtherItem(typeName: string)

  /** A compiled schema set: the global elements in table order, and the node arenas. */
  datatype SchemaSet = SchemaSet(globalElements: seq<DeclId>, elements: map<DeclId, ElementDecl>, groups: map<GroupId, seq<Item>>)

  predicate ItemResolves(s: SchemaSet, item: Item) {
    match item
    case SubGroup(h) => h in s.groups
    case ElementItem(d) => d in s.elements
    case _ => true
  }

  predicate ParticleResolves(s: SchemaSet, p: Particle) {
    (p.GroupBase? || p.GroupRef?) ==> p.group in s.groups
  }

  predicate AttributeUsesDistinct(uses: seq<AttributeDecl>) {
    forall i, j :: 0 <= i < j < |uses| ==> uses[i].qualifiedName != uses[j].qualifiedName
  }

  predicate DeclResolves(s: SchemaSet, decl: ElementDecl) {
    && IsNcName(decl.qualifiedName.name)
    && match decl.elementSchemaType
       case SimpleType => true
       case ComplexType(uses, p) =>
         && ParticleResolves(s, p)
         && AttributeUsesDistinct(uses)
         && forall i :: 0 <= i < |uses| ==> IsNcName(uses[i].qualifiedName.name)
  }

  /**
   * What a successful compile guarantees: every reference resolves, names are NCNames,
   * and the global-element and attribute-use tables, being keyed by qualified name,
   * hold each name once.
   */
  ghost predicate Compiled(s: SchemaSet) {
    && (forall i :: 0 <= i < |s.globalElements| ==> s.globalElements[i] in s.elements)
    && (forall i, j :: 0 <= i < j < |s.globalElements| ==>
          s.elements[s.globalElements[i]].qualifiedName != s.elements[s.globalElements[j]].qualifiedName)
    && (forall g, i :: g in s.groups && 0 <= i < |s.groups[g]| ==> ItemResolves(s, s.groups[g][i]))
    && (forall d :: d in s.elements ==> DeclResolves(s, s.elements[d]))
  }
}
