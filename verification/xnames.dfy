/**
 * The two qualified-name types the parser meets: `XmlQualifiedName` from the schema
 * object model and `XName` from LINQ to XML, and the expanded-name string form
 * `{namespace}local` that `XName.ToString` renders and `XName.Get` reads back.
 */
module XNames {
  import opened Outcomes

  /** A schema-side qualified name (`XmlQualifiedName`). */
  datatype XmlQualifiedName = XmlQualifiedName(name: string, ns: string)

  /** A LINQ to XML name (`XName`): a local name in a namespace, "" for none. */
  datatype XName = XName(localName: string, namespaceName: string)

  /**
   * The part of the NCName rule the model relies on: a local name is non-empty and
   * has none of the characters `{`, `}`, `!` and `:`, which no NCName contains.
   */
  predicate IsNcName(s: string) {
    |s| > 0 && forall i :: 0 <= i < |s| ==> s[i] !in "{}!:"
  }

  /** `XName.ToString()`: the local name alone, or `{namespace}local`. */
  function Render(x: XName): string {
    if x.namespaceName == "" then x.localName
    else "{" + x.namespaceName + "}" + x.localName
  }

  /** `String.LastIndexOf(c)`: the last position holding `c`, or -1. */
  function LastIndexOf(s: string, c: char): (r: int)
    ensures -1 <= r < |s|
    ensures r == -1 <==> c !in s
    ensures r >= 0 ==> s[r] == c && forall j :: r < j < |s| ==> s[j] != c
  {
    if s == [] then -1
    else if s[|s| - 1] == c then |s| - 1
    else LastIndexOf(s[..|s| - 1], c)
  }

  /**
   * `XName.Get(expandedName)`: a leading `{` opens a namespace that runs to the last
   * `}`; the namespace and the local name must both be non-empty, and the local name
   * must be an NCName. Anything else is rejected (the library throws).
   */
  function ParseExpandedName(s: string): Option<XName> {
    if s == [] then None
    else if s[0] == '{' then
      var i := LastIndexOf(s, '}');
      if i <= 1 || i == |s| - 1 then None
      else if !IsNcName(s[i + 1..]) then None
      else Some(XName(s[i + 1..], s[1..i]))
    else if IsNcName(s) then Some(XName(s, ""))
    else None
  }

  /** Rendering a name with an NCName local part and reading it back gives the name again. */
  lemma {:induction false} RenderRoundTrip(x: XName)
    requires IsNcName(x.localName)
    ensures ParseExpandedName(Render(x)) == Some(x)
  {
    var s := Render(x);
    if x.namespaceName == "" {
      assert s[0] == x.localName[0];
    } else {
      var n := |x.namespaceName|;
      assert s[1..n + 1] == x.namespaceName;
      assert s[n + 2..] == x.localName;
      assert s[n + 1] == '}';
      var i := LastIndexOf(s, '}');
      assert forall j :: n + 1 < j < |s| ==> s[j] == x.localName[j - n - 2];
      assert i == n + 1;
    }
  }

  /** Different names with NCName local parts render differently. */
  lemma {:induction false} RenderInjective(x: XName, y: XName)
    requires IsNcName(x.localName) && IsNcName(y.localName)
    ensures Render(x) == Render(y) <==> x == y
  {
    RenderRoundTrip(x);
    RenderRoundTrip(y);
  }
}
