/** The helpers of `Extensions.cs`: name conversion, rendering and ordering by name. */
module Extensions {
  import opened Outcomes
  import opened XNames
  import opened Ordering

  /** `ToXName`: `XName.Get(q.Name, q.Namespace)`, keeping both parts. */
  function ToXName(q: XmlQualifiedName): (x: XName)
    ensures x.localName == q.name && x.namespaceName == q.ns
  {
    XName(q.name, q.ns)
  }

  /**
   * `ToQualifiedNameString`: the rendered name of an element or attribute, which
   * `XName.Get` reads back as the same name.
   */
  function ToQualifiedNameString(name: XName): (r: string)
    ensures IsNcName(name.localName) ==> ParseExpandedName(r) == Some(name)
  {
    if IsNcName(name.localName) then
      RenderRoundTrip(name);
      Render(name)
    else
      Render(name)
  }

  /**
   * Converting and rendering loses nothing: two schema names with NCName local parts
   * give the same name string exactly when they are the same name.
   */
  lemma {:induction false} ToXNameInjective(p: XmlQualifiedName, q: XmlQualifiedName)
    requires IsNcName(p.name) && IsNcName(q.name)
    ensures ToQualifiedNameString(ToXName(p)) == ToQualifiedNameString(ToXName(q)) <==> p == q
  {
    RenderInjective(ToXName(p), ToXName(q));
  }

  /** The sort key `OrderByQualifiedName` uses: the rendered name. */
  function QualifiedNameKey<T>(nameOf: T -> XName): T -> string {
    x => ToQualifiedNameString(nameOf(x))
  }

  /**
   * `OrderByQualifiedName`: `OrderBy(ToQualifiedNameString)` under the default string
   * comparer `le`. The result is a permutation of the input.
   */
  function OrderByQualifiedName<T>(xs: seq<T>, nameOf: T -> XName, le: Comparer): (r: seq<T>)
    ensures multiset(r) == multiset(xs)
  {
    SortBy(xs, QualifiedNameKey(nameOf), le)
  }

  /**
   * Under a comparer that is a total preorder, `OrderByQualifiedName` is ordered by name
   * string, and items whose names the comparer ranks the same keep their input order.
   */
  lemma {:induction false} OrderByQualifiedNameSorted<T>(xs: seq<T>, nameOf: T -> XName, le: Comparer)
    requires TotalPreorder(le)
    ensures var r := OrderByQualifiedName(xs, nameOf, le);
            forall i, j :: 0 <= i < j < |r| ==> le(ToQualifiedNameString(nameOf(r[i])), ToQualifiedNameString(nameOf(r[j])))
    ensures forall k :: KeyClass(OrderByQualifiedName(xs, nameOf, le), QualifiedNameKey(nameOf), le, k)
                     == KeyClass(xs, QualifiedNameKey(nameOf), le, k)
  {
    var key := QualifiedNameKey(nameOf);
    SortBySorted(xs, key, le);
    forall k ensures KeyClass(SortBy(xs, key, le), key, le, k) == KeyClass(xs, key, le, k) {
      SortByStable(xs, key, le, k);
    }
  }
}
