/**
 * `CodeMirrorSchemaInfoSerializer`: the element graph as the JSON object CodeMirror's
 * XML hint addon reads. The object lists the top-level element names under `"!top"`
 * (only when there are any), then one member per element keyed by its name string;
 * an element's object has `"attrs"` and `"children"` members, each only when non-empty.
 *
 * Three comparers order the output. `OrderByQualifiedName` uses the default string
 * comparer, and attribute values use `StringComparer.InvariantCultureIgnoreCase`; both
 * are culture-dependent and are parameters here (`culture`, `ignoreCase`). Child names
 * use `StringComparer.Ordinal`, which is `OrdinalLe`.
 */
module CodeMirrorSerializer {
  import opened Outcomes
  import opened Collections
  import opened XNames
  import opened Ordering
  import opened SimpleXml
  import opened Extensions
  import opened JsonWriter

  function ElementName(e: Element): XName {
    e.name
  }

  function AttributeName(a: Attribute): XName {
    a.name
  }

  /** The key of `OrderBy(v => v, comparer)`. */
  function SelfKey(v: string): string {
    v
  }

  /** There is a top-level element among `es`. */
  predicate AnyTopLevel(es: seq<Element>) {
    exists j :: 0 <= j < |es| && es[j].isTopLevel
  }

  /** `elements.Where(e => e.IsTopLevelElement)`, in input order. */
  function TopLevel(es: seq<Element>): (r: seq<Element>)
    ensures forall e :: e in r <==> e in es && e.isTopLevel
    ensures r != [] <==> AnyTopLevel(es)
    ensures |r| <= |es|
  {
    if es == [] then []
    else
      var rest := TopLevel(es[1..]);
      assert AnyTopLevel(es[1..]) ==> AnyTopLevel(es) by {
        if AnyTopLevel(es[1..]) {
          var j :| 0 <= j < |es[1..]| && es[1..][j].isTopLevel;
          assert es[j + 1].isTopLevel;
        }
      }
      assert AnyTopLevel(es) && !es[0].isTopLevel ==> AnyTopLevel(es[1..]) by {
        if AnyTopLevel(es) && !es[0].isTopLevel {
          var j :| 0 <= j < |es| && es[j].isTopLevel;
          assert es[1..][j - 1].isTopLevel;
        }
      }
      (if es[0].isTopLevel then [es[0]] else []) + rest
  }

  /** `TopLevel` keeps each top-level element as often as `es` holds it, and drops the rest. */
  lemma {:induction false} TopLevelCounts(es: seq<Element>)
    ensures forall e :: multiset(TopLevel(es))[e] == if e.isTopLevel then multiset(es)[e] else 0
  {
    if es != [] {
      TopLevelCounts(es[1..]);
      assert es == [es[0]] + es[1..];
      assert multiset(es) == multiset{es[0]} + multiset(es[1..]);
    }
  }

  /** When the names in `es` are distinct, so are the names in `TopLevel(es)`. */
  lemma {:induction false} TopLevelNamesDistinct(es: seq<Element>)
    requires forall i, j :: 0 <= i < j < |es| ==> es[i].name != es[j].name
    ensures forall i, j :: 0 <= i < j < |TopLevel(es)| ==> TopLevel(es)[i].name != TopLevel(es)[j].name
  {
    if es != [] {
      var rest := es[1..];
      assert forall i, j :: 0 <= i < j < |rest| ==> rest[i].name != rest[j].name by {
        forall i, j | 0 <= i < j < |rest| ensures rest[i].name != rest[j].name {
          assert rest[i] == es[i + 1] && rest[j] == es[j + 1];
        }
      }
      TopLevelNamesDistinct(rest);
      forall k | 0 <= k < |TopLevel(rest)| ensures TopLevel(rest)[k].name != es[0].name {
        assert TopLevel(rest)[k] in rest;
        var m :| 0 <= m < |rest| && rest[m] == TopLevel(rest)[k];
        assert rest[m] == es[m + 1];
      }
    }
  }

  /** The name strings of `es`, as JSON strings. */
  function NameStrings(es: seq<Element>): (r: seq<Json>)
    ensures |r| == |es| && forall i {:trigger r[i]} :: 0 <= i < |es| ==> r[i] == JString(Render(es[i].name))
  {
    seq(|es|, i requires 0 <= i < |es| => JString(Render(es[i].name)))
  }

  /**
   * `WriteTopElements`: nothing when no element is top level; otherwise the single
   * member `"!top"` holding the top-level names.
   */
  function WriteTopElements(top: seq<Element>, culture: Comparer): (r: seq<Member>)
    ensures |r| <= 1 && (r == [] <==> top == [])
    ensures r != [] ==> r[0].key == "!top" && r[0].value.JArray? && |r[0].value.items| == |top|
  {
    if top == [] then []
    else [Member("!top", JArray(NameStrings(OrderByQualifiedName(top, ElementName, culture))))]
  }

  /** `values` as JSON strings. */
  function Strings(values: seq<string>): (r: seq<Json>)
    ensures |r| == |values| && forall i {:trigger r[i]} :: 0 <= i < |values| ==> r[i] == JString(values[i])
  {
    seq(|values|, i requires 0 <= i < |values| => JString(values[i]))
  }

  /**
   * An attribute's value in `"attrs"`: `null` when it has no possible values, otherwise
   * an array holding each of them, sorted by `ignoreCase`.
   */
  function AttributeValue(a: Attribute, ignoreCase: Comparer): (v: Json)
    ensures v == JNull <==> a.possibleValues == []
    ensures v != JNull ==> v.JArray? && |v.items| == |a.possibleValues|
  {
    if a.possibleValues == [] then JNull
    else JArray(Strings(SortBy(a.possibleValues, SelfKey, ignoreCase)))
  }

  /**
   * A non-null attribute value holds JSON strings only: each is a possible value, and
   * each possible value is there.
   */
  lemma {:induction false} AttributeValueLists(a: Attribute, ignoreCase: Comparer)
    ensures var v := AttributeValue(a, ignoreCase);
            v != JNull ==>
              && (forall i :: 0 <= i < |v.items| ==> v.items[i].JString? && v.items[i].text in a.possibleValues)
              && (forall x :: x in a.possibleValues ==> JString(x) in v.items)
  {
    if a.possibleValues != [] {
      var sorted := SortBy(a.possibleValues, SelfKey, ignoreCase);
      var items := Strings(sorted);
      forall i | 0 <= i < |items| ensures items[i].text in a.possibleValues {
        var j := PermutationIndex(sorted, a.possibleValues, i);
      }
      forall x | x in a.possibleValues ensures JString(x) in items {
        var k :| 0 <= k < |a.possibleValues| && a.possibleValues[k] == x;
        var i := PermutationIndex(a.possibleValues, sorted, k);
        assert items[i] == JString(x);
      }
    }
  }

  /** The value `WriteElement` writes for each attribute, as a function of the attribute. */
  function WriteAttribute(ignoreCase: Comparer): Attribute -> Json {
    a => AttributeValue(a, ignoreCase)
  }

  /** The key of an attribute's member. */
  function AttributeKey(a: Attribute): string {
    Render(a.name)
  }

  /** One member of `"attrs"`: the attribute's name string and the value `value` writes for it. */
  function AttributeMember(a: Attribute, value: Attribute -> Json): Member {
    Member(AttributeKey(a), value(a))
  }

  /** The members of `"attrs"` for `attrs`, in the order given. */
  function AttributeMembers(attrs: seq<Attribute>, value: Attribute -> Json): (r: seq<Member>)
    ensures |r| == |attrs| && forall i {:trigger r[i]} :: 0 <= i < |attrs| ==> r[i] == AttributeMember(attrs[i], value)
  {
    seq(|attrs|, i requires 0 <= i < |attrs| => AttributeMember(attrs[i], value))
  }

  /**
   * The members of the `"attrs"` object: the attributes in `OrderByQualifiedName` order.
   * The lemmas about it hold for every `value`, so in particular for `WriteAttribute`.
   */
  function AttrsObject(attrs: seq<Attribute>, culture: Comparer, value: Attribute -> Json): seq<Member> {
    AttributeMembers(OrderByQualifiedName(attrs, AttributeName, culture), value)
  }

  /** A child name as an item of `"children"`. */
  function NameItem(c: XName): Json {
    JString(Render(c))
  }

  /** The child names already in order, as items. */
  function NameItems(sorted: seq<XName>): (r: seq<Json>)
    ensures |r| == |sorted| && forall i {:trigger r[i]} :: 0 <= i < |sorted| ==> r[i] == NameItem(sorted[i])
  {
    seq(|sorted|, i requires 0 <= i < |sorted| => NameItem(sorted[i]))
  }

  /** The items of `"children"`: the child name strings in ordinal order. */
  function ChildItems(children: seq<XName>): (r: seq<Json>)
    ensures |r| == |children| && forall i :: 0 <= i < |r| ==> r[i].JString?
  {
    NameItems(SortBy(children, Render, OrdinalLe))
  }

  /**
   * `WriteElement`'s object: `"attrs"` exactly when the element has attributes and
   * `"children"` exactly when it has children, no other key, `"attrs"` first; an element
   * with neither is the empty object.
   */
  function ElementObject(e: Element, culture: Comparer, ignoreCase: Comparer): (j: Json)
    ensures j.JObject? && |j.members| <= 2
    ensures ObjectShape(j.members, e.attributes != [], e.children != [])
  {
    var ms := (if e.attributes != [] then [Member("attrs", JObject(AttrsObject(e.attributes, culture, WriteAttribute(ignoreCase))))] else []) +
              (if e.children != [] then [Member("children", JArray(ChildItems(e.children)))] else []);
    KeysGiveShape(ms, e.attributes != [], e.children != []);
    JObject(ms)
  }

  /**
   * An element's object member by member: the `"attrs"` object first when the element
   * has attributes, the `"children"` array last when it has children, and nothing else.
   */
  lemma {:induction false} ElementObjectMembers(e: Element, culture: Comparer, ignoreCase: Comparer)
    ensures var ms := ElementObject(e, culture, ignoreCase).members;
            && |ms| == (if e.attributes != [] then 1 else 0) + (if e.children != [] then 1 else 0)
            && (e.attributes != [] ==> ms[0] == Member("attrs", JObject(AttrsObject(e.attributes, culture, WriteAttribute(ignoreCase)))))
            && (e.children != [] ==> ms[|ms| - 1] == Member("children", JArray(ChildItems(e.children))))
  {
    var ms := ElementObject(e, culture, ignoreCase).members;
    var attrs := Member("attrs", JObject(AttrsObject(e.attributes, culture, WriteAttribute(ignoreCase))));
    var children := Member("children", JArray(ChildItems(e.children)));
    if e.attributes != [] && e.children != [] {
      assert ms == [attrs, children];
    } else if e.attributes != [] {
      assert ms == [attrs];
    } else if e.children != [] {
      assert ms == [children];
    }
  }

  /** The shape of an element's object, stated for any member list with the keys `ElementObjectMembers` gives. */
  predicate ObjectShape(ms: seq<Member>, hasAttrs: bool, hasChildren: bool) {
    && ((exists i :: 0 <= i < |ms| && ms[i].key == "attrs") <==> hasAttrs)
    && ((exists i :: 0 <= i < |ms| && ms[i].key == "children") <==> hasChildren)
    && (forall i :: 0 <= i < |ms| ==> ms[i].key == "attrs" || ms[i].key == "children")
    && (forall i, k :: 0 <= i < |ms| && 0 <= k < |ms| && ms[i].key == "attrs" && ms[k].key == "children" ==> i < k)
    && (ms == [] <==> !hasAttrs && !hasChildren)
  }

  lemma {:induction false} KeysGiveShape(ms: seq<Member>, hasAttrs: bool, hasChildren: bool)
    requires |ms| == (if hasAttrs then 1 else 0) + (if hasChildren then 1 else 0)
    requires hasAttrs ==> ms[0].key == "attrs"
    requires hasChildren ==> ms[|ms| - 1].key == "children"
    ensures ObjectShape(ms, hasAttrs, hasChildren)
  {
    assert "attrs" != "children";
  }

  /** The keys of an element's object: `"attrs"` when it has attributes, then `"children"` when it has children. */
  lemma {:induction false} ElementObjectKeys(culture: Comparer, ignoreCase: Comparer)
    ensures forall e :: Keys(ElementObject(e, culture, ignoreCase).members) ==
              (if e.attributes != [] then ["attrs"] else []) + (if e.children != [] then ["children"] else [])
  {
    forall e ensures Keys(ElementObject(e, culture, ignoreCase).members) ==
                     (if e.attributes != [] then ["attrs"] else []) + (if e.children != [] then ["children"] else [])
    {
      ElementObjectKeysOf(e, culture, ignoreCase);
    }
  }

  /** The keys of one element's object, case by case. */
  lemma {:induction false} ElementObjectKeysOf(e: Element, culture: Comparer, ignoreCase: Comparer)
    ensures Keys(ElementObject(e, culture, ignoreCase).members) ==
            (if e.attributes != [] then ["attrs"] else []) + (if e.children != [] then ["children"] else [])
  {
    ElementObjectMembers(e, culture, ignoreCase);
    KeysOfShape(ElementObject(e, culture, ignoreCase).members, e.attributes != [], e.children != []);
  }

  /** The keys of a member list with an optional `"attrs"` first and an optional `"children"` last. */
  lemma {:induction false} KeysOfShape(ms: seq<Member>, hasAttrs: bool, hasChildren: bool)
    requires |ms| == (if hasAttrs then 1 else 0) + (if hasChildren then 1 else 0)
    requires hasAttrs ==> ms[0].key == "attrs"
    requires hasChildren ==> ms[|ms| - 1].key == "children"
    ensures Keys(ms) == (if hasAttrs then ["attrs"] else []) + (if hasChildren then ["children"] else [])
  {
    var ks := Keys(ms);
    if hasAttrs && hasChildren {
      assert ks == ["attrs", "children"];
    } else if hasAttrs {
      assert ks == ["attrs"];
    } else if hasChildren {
      assert ks == ["children"];
    }
  }

  /**
   * `WriteElement`, as the function from an element to the object it writes: an object
   * keyed `"attrs"` exactly when the element has attributes, then `"children"` exactly
   * when it has children.
   */
  function WriteElement(culture: Comparer, ignoreCase: Comparer): (w: Element -> Json)
    ensures forall e :: w(e).JObject? &&
              Keys(w(e).members) == (if e.attributes != [] then ["attrs"] else []) + (if e.children != [] then ["children"] else [])
  {
    ElementObjectKeys(culture, ignoreCase);
    e => ElementObject(e, culture, ignoreCase)
  }

  /** One element's member of the result: its name string and the object `obj` writes for it. */
  function ElementMember(e: Element, obj: Element -> Json): Member {
    Member(ElementKey(e), obj(e))
  }

  /** The members of `es`, in the order given. */
  function ElementMembers(es: seq<Element>, obj: Element -> Json): (r: seq<Member>)
    ensures |r| == |es| && forall i {:trigger r[i]} :: 0 <= i < |es| ==> r[i] == ElementMember(es[i], obj)
  {
    seq(|es|, i requires 0 <= i < |es| => ElementMember(es[i], obj))
  }

  /**
   * The members of the object `ToJsonString` writes, for an element writer `obj`:
   * `"!top"` if any element is top level, then every element by name. The lemmas
   * below hold for every `obj`, so in particular for `WriteElement`.
   */
  function Document(es: seq<Element>, culture: Comparer, obj: Element -> Json): (r: seq<Member>)
    ensures |r| == TopCount(es) + |es|
    ensures AnyTopLevel(es) ==> r[0].key == "!top"
  {
    assert TopLevel(es) != [] <==> AnyTopLevel(es);
    WriteTopElements(TopLevel(es), culture) + WriteElements(es, culture, obj)
  }

  /** The element members: one per element, in `OrderByQualifiedName` order. */
  function WriteElements(es: seq<Element>, culture: Comparer, obj: Element -> Json): seq<Member> {
    ElementMembers(OrderByQualifiedName(es, ElementName, culture), obj)
  }

  /**
   * `ToJsonString`'s object: `"!top"` first when some element is top level, then one
   * member per element, keyed by the element's name string.
   */
  function ToJson(es: seq<Element>, culture: Comparer, ignoreCase: Comparer): (j: Json)
    ensures j.JObject? && |j.members| == TopCount(es) + |es|
    ensures AnyTopLevel(es) ==> j.members[0].key == "!top"
    ensures forall k :: 0 <= k < |es| ==> ElementKey(es[k]) in Keys(j.members)
  {
    var ms := Document(es, culture, WriteElement(culture, ignoreCase));
    ElementPositions(es, culture, WriteElement(culture, ignoreCase));
    KeysAppend(ms, TopCount(es));
    ElementKeysPresent(es, culture, WriteElement(culture, ignoreCase));
    JObject(ms)
  }

  /**
   * `ToJsonString()`: the writer output; `pretty` is the `Pretty` flag. Reading the
   * calls it writes back gives the object `ToJson` describes, and nothing after it.
   */
  function ToJsonString(es: seq<Element>, pretty: bool, culture: Comparer, ignoreCase: Comparer): (r: seq<Piece>)
    ensures ParseValue(Strip(r)) == Some((ToJson(es, culture, ignoreCase), []))
  {
    var ts := Tokens(ToJson(es, culture, ignoreCase));
    LayoutKeepsTokens(None, ts, 0, pretty);
    ParseTokensRoundTrip(ToJson(es, culture, ignoreCase), []);
    assert ts + [] == ts;
    Layout(ts, pretty)
  }

  // ----- The top-level names -----

  /** No name with an NCName local part renders as the key `"!top"`. */
  lemma {:induction false} RenderIsNotTopKey(x: XName)
    requires IsNcName(x.localName)
    ensures Render(x) != "!top"
  {
    if x.namespaceName == "" {
      assert Render(x)[0] == x.localName[0] != '!';
    } else {
      assert Render(x)[0] == '{';
    }
  }

  /** The number of leading members before the element members: 1 for `"!top"`, or 0. */
  function TopCount(es: seq<Element>): nat {
    if AnyTopLevel(es) then 1 else 0
  }

  /** The name string an element is keyed by. */
  function ElementKey(e: Element): string {
    Render(e.name)
  }

  /** The keys of `ms`, in order. */
  function Keys(ms: seq<Member>): (r: seq<string>)
    ensures |r| == |ms| && forall i {:trigger r[i]} :: 0 <= i < |ms| ==> r[i] == ms[i].key
  {
    seq(|ms|, i requires 0 <= i < |ms| => ms[i].key)
  }

  /** `WriteTopElements` writes `TopCount` members. */
  lemma {:induction false} TopMembersCount(es: seq<Element>, culture: Comparer)
    ensures |WriteTopElements(TopLevel(es), culture)| == TopCount(es)
  {
    assert TopLevel(es) != [] <==> AnyTopLevel(es);
  }

  /** The result's members: the `TopCount` members of `WriteTopElements`, then the element members. */
  lemma {:induction false} ElementPositions(es: seq<Element>, culture: Comparer, obj: Element -> Json)
    ensures var ms := Document(es, culture, obj);
            && |ms| == TopCount(es) + |es|
            && ms[..TopCount(es)] == WriteTopElements(TopLevel(es), culture)
            && ms[TopCount(es)..] == WriteElements(es, culture, obj)
  {
    TopMembersCount(es, culture);
  }

  /**
   * When some element is top level, `WriteTopElements` writes the one member `"!top"`,
   * listing every top-level element's name string and nothing else, one entry per
   * top-level element, ordered by `culture`.
   */
  lemma {:induction false} TopArrayListsTopLevel(es: seq<Element>, culture: Comparer)
    requires TotalPreorder(culture)
    ensures AnyTopLevel(es) ==>
              var r := WriteTopElements(TopLevel(es), culture);
              && |r| == 1 && r[0].key == "!top" && r[0].value.JArray?
              && var items := r[0].value.items;
              && |items| == |TopLevel(es)|
              && (forall i :: 0 <= i < |items| ==> items[i].JString?)
              && (forall i :: 0 <= i < |items| ==> exists j :: 0 <= j < |es| && es[j].isTopLevel && items[i].text == Render(es[j].name))
              && (forall j :: 0 <= j < |es| && es[j].isTopLevel ==> JString(Render(es[j].name)) in items)
              && (forall i, k :: 0 <= i < k < |items| ==> culture(items[i].text, items[k].text))
  {
    if AnyTopLevel(es) {
      var top := TopLevel(es);
      var sorted := OrderByQualifiedName(top, ElementName, culture);
      OrderByQualifiedNameSorted(top, ElementName, culture);
      var items := NameStrings(sorted);
      assert WriteTopElements(top, culture)[0].value.items == items;
      forall i | 0 <= i < |items|
        ensures exists j :: 0 <= j < |es| && es[j].isTopLevel && items[i].text == Render(es[j].name)
      {
        var t := PermutationIndex(sorted, top, i);
        assert top[t] in top;
        var j :| 0 <= j < |es| && es[j] == top[t];
      }
      forall j | 0 <= j < |es| && es[j].isTopLevel ensures JString(Render(es[j].name)) in items {
        assert es[j] in top;
        var t :| 0 <= t < |top| && top[t] == es[j];
        var i := PermutationIndex(top, sorted, t);
        assert items[i] == JString(Render(es[j].name));
      }
    }
  }

  /** Elements with distinct NCName-local names keep distinct name strings among the top-level ones. */
  lemma {:induction false} TopNameStringsDistinct(es: seq<Element>)
    requires forall j :: 0 <= j < |es| ==> IsNcName(es[j].name.localName)
    requires forall i, j :: 0 <= i < j < |es| ==> es[i].name != es[j].name
    ensures forall a, b :: 0 <= a < b < |TopLevel(es)| ==> Render(TopLevel(es)[a].name) != Render(TopLevel(es)[b].name)
  {
    var top := TopLevel(es);
    TopLevelNamesDistinct(es);
    forall a, b | 0 <= a < b < |top| ensures Render(top[a].name) != Render(top[b].name) {
      assert top[a] in es && top[b] in es;
      RenderInjective(top[a].name, top[b].name);
    }
  }

  /**
   * Elements with distinct NCName-local names (as `GetXmlElements` builds them) list
   * each top-level name once in `"!top"`.
   */
  lemma {:induction false} TopNamesDistinct(es: seq<Element>, culture: Comparer)
    requires forall j :: 0 <= j < |es| ==> IsNcName(es[j].name.localName)
    requires forall i, j :: 0 <= i < j < |es| ==> es[i].name != es[j].name
    ensures AnyTopLevel(es) ==> NoDuplicates(WriteTopElements(TopLevel(es), culture)[0].value.items)
  {
    if AnyTopLevel(es) {
      var top := TopLevel(es);
      TopNameStringsDistinct(es);
      SortedNameStringsDistinct(top, culture);
      assert WriteTopElements(top, culture)[0].value.items == NameStrings(OrderByQualifiedName(top, ElementName, culture));
    }
  }

  /** Sorting elements whose name strings are distinct keeps them distinct. */
  lemma {:induction false} SortedNameStringsDistinct(top: seq<Element>, culture: Comparer)
    requires forall a, b :: 0 <= a < b < |top| ==> Render(top[a].name) != Render(top[b].name)
    ensures NoDuplicates(NameStrings(OrderByQualifiedName(top, ElementName, culture)))
  {
    var sorted := OrderByQualifiedName(top, ElementName, culture);
    var items := NameStrings(sorted);
    var f := (e: Element) => JString(Render(e.name));
    assert forall a, b :: 0 <= a < b < |top| ==> f(top[a]) != f(top[b]);
    DistinctImagesPermuted(top, sorted, f, items, 0);
  }

  // ----- The element members -----

  /**
   * The element members are exactly one per element: each element's member occurs,
   * and every member is some element's.
   */
  lemma {:induction false} ElementMembersOneEach(es: seq<Element>, culture: Comparer, obj: Element -> Json)
    ensures var em := WriteElements(es, culture, obj);
            && |em| == |es|
            && (forall j :: 0 <= j < |es| ==> ElementMember(es[j], obj) in em)
            && (forall i :: 0 <= i < |em| ==> em[i] in ElementMembers(es, obj))
  {
    var em := WriteElements(es, culture, obj);
    MapPermutation(es, OrderByQualifiedName(es, ElementName, culture), e => ElementMember(e, obj), ElementMembers(es, obj), em, 0);
    assert em[0..] == em;
  }

  /** The element members are ordered by `culture` on their keys. */
  lemma {:induction false} ElementKeysSorted(es: seq<Element>, culture: Comparer, obj: Element -> Json)
    requires TotalPreorder(culture)
    ensures var ks := Keys(WriteElements(es, culture, obj));
            forall i, k :: 0 <= i < k < |ks| ==> culture(ks[i], ks[k])
  {
    OrderByQualifiedNameSorted(es, ElementName, culture);
  }

  /** Elements with distinct NCName-local names have distinct keys. */
  lemma {:induction false} ElementKeysOfDistinctNames(es: seq<Element>)
    requires forall j :: 0 <= j < |es| ==> IsNcName(es[j].name.localName)
    requires forall i, j :: 0 <= i < j < |es| ==> es[i].name != es[j].name
    ensures forall i, j :: 0 <= i < j < |es| ==> ElementKey(es[i]) != ElementKey(es[j])
  {
    forall i, j | 0 <= i < j < |es| ensures ElementKey(es[i]) != ElementKey(es[j]) {
      RenderInjective(es[i].name, es[j].name);
    }
  }

  /** Elements with distinct names (as `GetXmlElements` builds them) give element members with distinct keys. */
  lemma {:induction false} ElementMemberKeysDistinct(es: seq<Element>, culture: Comparer, obj: Element -> Json)
    requires forall j :: 0 <= j < |es| ==> IsNcName(es[j].name.localName)
    requires forall i, j :: 0 <= i < j < |es| ==> es[i].name != es[j].name
    ensures NoDuplicates(Keys(WriteElements(es, culture, obj)))
  {
    ElementKeysOfDistinctNames(es);
    DistinctImagesPermuted(es, OrderByQualifiedName(es, ElementName, culture), ElementKey,
                           Keys(WriteElements(es, culture, obj)), 0);
  }

  /** No element member is keyed `"!top"`. */
  lemma {:induction false} ElementKeysNotTop(es: seq<Element>, culture: Comparer, obj: Element -> Json)
    requires forall j :: 0 <= j < |es| ==> IsNcName(es[j].name.localName)
    ensures "!top" !in Keys(WriteElements(es, culture, obj))
  {
    var ks := Keys(WriteElements(es, culture, obj));
    var sorted := OrderByQualifiedName(es, ElementName, culture);
    forall i | 0 <= i < |ks| ensures ks[i] != "!top" {
      var j := PermutationIndex(sorted, es, i);
      RenderIsNotTopKey(es[j].name);
    }
  }

  /** Every element's name string is a key of an element member. */
  lemma {:induction false} ElementKeysPresent(es: seq<Element>, culture: Comparer, obj: Element -> Json)
    ensures forall k :: 0 <= k < |es| ==> ElementKey(es[k]) in Keys(WriteElements(es, culture, obj))
  {
    var ks := Keys(WriteElements(es, culture, obj));
    var sorted := OrderByQualifiedName(es, ElementName, culture);
    forall k | 0 <= k < |es| ensures ElementKey(es[k]) in ks {
      var t := PermutationIndex(es, sorted, k);
      assert ks[t] == ElementKey(sorted[t]);
    }
  }

  // ----- The whole object -----

  /** The keys of a concatenation are the keys of its parts. */
  lemma {:induction false} KeysAppend(ms: seq<Member>, off: nat)
    requires off <= |ms|
    ensures Keys(ms) == Keys(ms[..off]) + Keys(ms[off..])
  {
    assert forall i :: 0 <= i < |ms| ==> Keys(ms)[i] == (Keys(ms[..off]) + Keys(ms[off..]))[i];
  }

  /**
   * `"!top"` is a key exactly when some element is top level, and then it is the first
   * key. Element name strings never clash with it.
   */
  lemma {:induction false} TopKeyIffTopLevel(es: seq<Element>, culture: Comparer, obj: Element -> Json)
    requires forall j :: 0 <= j < |es| ==> IsNcName(es[j].name.localName)
    ensures var ks := Keys(Document(es, culture, obj));
            && ("!top" in ks <==> AnyTopLevel(es))
            && (forall i :: 0 <= i < |ks| && ks[i] == "!top" ==> i == 0)
  {
    var ms := Document(es, culture, obj);
    ElementPositions(es, culture, obj);
    KeysAppend(ms, TopCount(es));
    ElementKeysNotTop(es, culture, obj);
    var top := Keys(ms[..TopCount(es)]);
    assert top == (if AnyTopLevel(es) then ["!top"] else []);
  }

  /** Elements with distinct names (as `GetXmlElements` builds them) give distinct keys, `"!top"` included. */
  lemma {:induction false} ElementKeysDistinct(es: seq<Element>, culture: Comparer, obj: Element -> Json)
    requires forall j :: 0 <= j < |es| ==> IsNcName(es[j].name.localName)
    requires forall i, j :: 0 <= i < j < |es| ==> es[i].name != es[j].name
    ensures NoDuplicates(Keys(Document(es, culture, obj)))
  {
    var ms := Document(es, culture, obj);
    ElementPositions(es, culture, obj);
    KeysAppend(ms, TopCount(es));
    ElementMemberKeysDistinct(es, culture, obj);
    ElementKeysNotTop(es, culture, obj);
    var rest := Keys(ms[TopCount(es)..]);
    if AnyTopLevel(es) {
      assert Keys(ms[..TopCount(es)]) == ["!top"];
      NoDuplicatesCons("!top", rest);
    } else {
      assert Keys(ms) == rest;
    }
  }

  /**
   * When every child name is the name of some element (as `GetXmlElements` guarantees),
   * every name string in a `"children"` array is a key of the result.
   */
  lemma {:induction false} ChildrenAreKeys(es: seq<Element>, culture: Comparer, obj: Element -> Json)
    requires forall j, c :: 0 <= j < |es| && c in es[j].children ==> exists k :: 0 <= k < |es| && es[k].name == c
    ensures forall j, c :: 0 <= j < |es| && c in es[j].children ==> Render(c) in Keys(Document(es, culture, obj))
  {
    var ms := Document(es, culture, obj);
    ElementPositions(es, culture, obj);
    KeysAppend(ms, TopCount(es));
    ElementKeysPresent(es, culture, obj);
    forall j, c | 0 <= j < |es| && c in es[j].children ensures Render(c) in Keys(ms) {
      var k :| 0 <= k < |es| && es[k].name == c;
      assert ElementKey(es[k]) == Render(c);
    }
  }

  // ----- Attributes -----

  /** The `"attrs"` object holds exactly one member per attribute: its name string and its value. */
  lemma {:induction false} AttrsOneEach(attrs: seq<Attribute>, culture: Comparer, value: Attribute -> Json)
    ensures var am := AttrsObject(attrs, culture, value);
            && |am| == |attrs|
            && (forall j :: 0 <= j < |attrs| ==> AttributeMember(attrs[j], value) in am)
            && (forall i :: 0 <= i < |am| ==> am[i] in AttributeMembers(attrs, value))
  {
    var sorted := OrderByQualifiedName(attrs, AttributeName, culture);
    var am := AttrsObject(attrs, culture, value);
    MapPermutation(attrs, sorted, a => AttributeMember(a, value), AttributeMembers(attrs, value), am, 0);
    assert am[0..] == am;
  }

  /** The `"attrs"` keys are ordered by `culture`. */
  lemma {:induction false} AttrsKeysSorted(attrs: seq<Attribute>, culture: Comparer, value: Attribute -> Json)
    requires TotalPreorder(culture)
    ensures var ks := Keys(AttrsObject(attrs, culture, value));
            forall i, k :: 0 <= i < k < |ks| ==> culture(ks[i], ks[k])
  {
    OrderByQualifiedNameSorted(attrs, AttributeName, culture);
  }

  /** Attributes with distinct NCName-local names have distinct keys. */
  lemma {:induction false} AttributeKeysOfDistinctNames(attrs: seq<Attribute>)
    requires NoDuplicates(AttributeNames(attrs))
    requires forall j :: 0 <= j < |attrs| ==> IsNcName(attrs[j].name.localName)
    ensures forall i, j :: 0 <= i < j < |attrs| ==> AttributeKey(attrs[i]) != AttributeKey(attrs[j])
  {
    var names := AttributeNames(attrs);
    forall i, j | 0 <= i < j < |attrs| ensures AttributeKey(attrs[i]) != AttributeKey(attrs[j]) {
      assert names[i] != names[j];
      RenderInjective(attrs[i].name, attrs[j].name);
    }
  }

  /** Attributes with distinct NCName-local names, as an element holds them, have distinct keys in `"attrs"`. */
  lemma {:induction false} AttrsKeysDistinct(attrs: seq<Attribute>, culture: Comparer, value: Attribute -> Json)
    requires NoDuplicates(AttributeNames(attrs))
    requires forall j :: 0 <= j < |attrs| ==> IsNcName(attrs[j].name.localName)
    ensures NoDuplicates(Keys(AttrsObject(attrs, culture, value)))
  {
    AttributeKeysOfDistinctNames(attrs);
    AttrsKeysDistinctByKey(attrs, culture, value);
  }

  /** Attributes with distinct keys keep them distinct in `"attrs"`. */
  lemma {:induction false} AttrsKeysDistinctByKey(attrs: seq<Attribute>, culture: Comparer, value: Attribute -> Json)
    requires forall i, j :: 0 <= i < j < |attrs| ==> AttributeKey(attrs[i]) != AttributeKey(attrs[j])
    ensures NoDuplicates(Keys(AttrsObject(attrs, culture, value)))
  {
    DistinctImagesPermuted(attrs, OrderByQualifiedName(attrs, AttributeName, culture), AttributeKey,
                           Keys(AttrsObject(attrs, culture, value)), 0);
  }

  /** A non-null attribute value lists the possible values ordered by `ignoreCase`. */
  lemma {:induction false} AttributeValueSorted(a: Attribute, ignoreCase: Comparer)
    requires TotalPreorder(ignoreCase)
    ensures var v := AttributeValue(a, ignoreCase);
            v.JArray? ==> forall i, k :: 0 <= i < k < |v.items| ==> ignoreCase(v.items[i].text, v.items[k].text)
  {
    if a.possibleValues != [] {
      SortBySorted(a.possibleValues, SelfKey, ignoreCase);
    }
  }

  /** Each possible value appears once in the attribute's array. */
  lemma {:induction false} AttributeValueOnce(a: Attribute, ignoreCase: Comparer)
    requires ValidAttribute(a)
    ensures var v := AttributeValue(a, ignoreCase);
            v.JArray? ==> NoDuplicates(v.items)
  {
    if a.possibleValues != [] {
      var sorted := SortBy(a.possibleValues, SelfKey, ignoreCase);
      PermutationNoDuplicates(a.possibleValues, sorted);
    }
  }

  // ----- Children -----

  /**
   * The `"children"` array holds each child's name string, and nothing else, one item
   * per child.
   */
  lemma {:induction false} ChildItemsOneEach(children: seq<XName>)
    ensures var r := ChildItems(children);
            && |r| == |children|
            && (forall k :: 0 <= k < |children| ==> NameItem(children[k]) in r)
            && (forall i :: 0 <= i < |r| ==> r[i] in NameItems(children))
  {
    var r := ChildItems(children);
    MapPermutation(children, SortBy(children, Render, OrdinalLe), NameItem, NameItems(children), r, 0);
    assert r[0..] == r;
  }

  /**
   * For an element whose children are distinct, with NCName local parts, the
   * `"children"` items are in strictly increasing ordinal order: no name string twice.
   */
  lemma {:induction false} ChildItemsOrdered(children: seq<XName>)
    requires NoDuplicates(children)
    requires forall k :: 0 <= k < |children| ==> IsNcName(children[k].localName)
    ensures var r := ChildItems(children);
            forall i, k :: 0 <= i < k < |r| ==> OrdinalLe(r[i].text, r[k].text) && r[i].text != r[k].text
  {
    var sorted := SortBy(children, Render, OrdinalLe);
    var r := ChildItems(children);
    OrdinalIsTotalOrder();
    SortBySorted(children, Render, OrdinalLe);
    PermutationNoDuplicates(children, sorted);
    forall i, k | 0 <= i < k < |r| ensures r[i].text != r[k].text {
      var a := PermutationIndex(sorted, children, i);
      var b := PermutationIndex(sorted, children, k);
      RenderInjective(sorted[i], sorted[k]);
    }
  }

  /**
   * The `"children"` array depends only on the set of children, not on the order in
   * which they were added.
   */
  lemma {:induction false} ChildItemsCanonical(c1: seq<XName>, c2: seq<XName>)
    requires NoDuplicates(c1) && NoDuplicates(c2) && ToSet(c1) == ToSet(c2)
    requires forall k :: 0 <= k < |c1| ==> IsNcName(c1[k].localName)
    ensures ChildItems(c1) == ChildItems(c2)
  {
    SameMembersSameMultiset(c1, c2);
    OrdinalIsTotalOrder();
    forall a, b | a in c1 && b in c1 && Render(a) == Render(b) ensures a == b {
      RenderInjective(a, b);
    }
    SortByOrderIrrelevant(c1, c2, Render, OrdinalLe);
  }

  // ----- Formatting -----

  /**
   * The `Pretty` flag changes only whitespace: both outputs write the same calls, which
   * read back as the same object, and line up piece by piece with gaps equal up to
   * spaces and line breaks.
   */
  lemma {:induction false} PrettyChangesOnlyWhitespace(es: seq<Element>, culture: Comparer, ignoreCase: Comparer)
    ensures var j := ToJson(es, culture, ignoreCase);
            && Strip(ToJsonString(es, true, culture, ignoreCase)) == Tokens(j)
            && Strip(ToJsonString(es, false, culture, ignoreCase)) == Tokens(j)
            && ParseValue(Tokens(j)) == Some((j, []))
    ensures var p, c := ToJsonString(es, true, culture, ignoreCase), ToJsonString(es, false, culture, ignoreCase);
            && |p| == |c|
            && forall i :: 0 <= i < |p| ==>
                 && (p[i].Tok? <==> c[i].Tok?)
                 && (p[i].Tok? ==> p[i] == c[i])
                 && (p[i].Gap? ==> WithoutWhitespace(p[i].text) == c[i].text)
  {
    var ts := Tokens(ToJson(es, culture, ignoreCase));
    LayoutKeepsTokens(None, ts, 0, true);
    LayoutKeepsTokens(None, ts, 0, false);
    ParseTokensRoundTrip(ToJson(es, culture, ignoreCase), []);
    assert ts + [] == ts;
    LayoutsDifferOnlyInWhitespace(None, ts, 0);
  }
}
