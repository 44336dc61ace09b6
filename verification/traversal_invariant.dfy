/**
 * The parts of the invariant of the breadth-first traversal in `GetXmlElements`, each
 * with the lemmas that show a step of the loop keeps it.
 */
module TraversalInvariant {
  import opened Outcomes
  import opened Collections
  import opened XNames
  import opened Schema
  import opened SimpleXml
  import opened Extensions
  import opened ParticleWalker
  import opened ElementParser

  /** Every name a declaration of `s` can give: the finite universe the traversal draws from. */
  function Universe(s: SchemaSet): set<XName> {
    set d | d in s.elements :: DeclName(s, d)
  }

  /** Materialising a name not seen before leaves fewer unseen names. */
  lemma {:induction false} UnseenShrinks<T>(universe: set<T>, seen: set<T>, x: T)
    requires x in universe - seen
    ensures |universe - (seen + {x})| < |universe - seen|
  {
    assert universe - (seen + {x}) == (universe - seen) - {x};
  }

  /** The names of the elements `es`. */
  function ElementNames(es: seq<Element>): set<XName> {
    set j | 0 <= j < |es| :: es[j].name
  }

  /** The names listed as children by any of the elements `es`. */
  function ChildNames(es: seq<Element>): set<XName> {
    set j, c | 0 <= j < |es| && c in es[j].children :: c
  }

  /** Declaration `d` has complex type whose content particle fails to parse with error `e`. */
  ghost predicate ContentFails(s: SchemaSet, d: DeclId, e: ParseError)
    requires Compiled(s) && d in s.elements
  {
    match s.elements[d].elementSchemaType
    case SimpleType => false
    case ComplexType(_, p) =>
      assert DeclResolves(s, s.elements[d]);
      ParseContent(s, p) == Err(e)
  }

  /**
   * The elements built so far: element `j` is `ParseElement` of the declaration dequeued
   * at position `origin[j]`, top level exactly when `j` is below the global count; the
   * elements are in the order their declarations were dequeued.
   */
  ghost predicate Built(s: SchemaSet, dequeued: seq<DeclId>, elements: seq<Element>, origin: seq<nat>)
    requires Compiled(s)
  {
    && (forall k :: 0 <= k < |dequeued| ==> dequeued[k] in s.elements)
    && |origin| == |elements| <= |dequeued|
    && Increasing(origin)
    && forall j :: 0 <= j < |elements| ==>
         && origin[j] < |dequeued|
         && ParseElement(s, dequeued[origin[j]], j < |s.globalElements|).Ok?
         && elements[j] == ParseElement(s, dequeued[origin[j]], j < |s.globalElements|).value.element
  }

  /** Each element built carries the name of the declaration it was built from. */
  lemma {:induction false} BuiltNames(s: SchemaSet, dequeued: seq<DeclId>, elements: seq<Element>, origin: seq<nat>)
    requires Compiled(s) && Built(s, dequeued, elements, origin)
    ensures forall j :: 0 <= j < |elements| ==> elements[j].name == DeclName(s, dequeued[origin[j]])
  {
    forall j | 0 <= j < |elements| ensures elements[j].name == DeclName(s, dequeued[origin[j]]) {
      var r := ParseElement(s, dequeued[origin[j]], j < |s.globalElements|);
      assert elements[j] == r.value.element;
    }
  }

  /** `names` is the key set of the dictionary: the element names, each held once. */
  ghost predicate NamesKept(s: SchemaSet, elements: seq<Element>, names: set<XName>) {
    && names == ElementNames(elements) && names <= Universe(s)
    && forall i, j :: 0 <= i < j < |elements| ==> elements[i].name != elements[j].name
  }

  /** Each element comes from the first dequeued declaration with its name; every dequeued name is kept. */
  ghost predicate FirstWins(s: SchemaSet, dequeued: seq<DeclId>, elements: seq<Element>, names: set<XName>, origin: seq<nat>)
    requires forall k :: 0 <= k < |dequeued| ==> dequeued[k] in s.elements
  {
    && |origin| == |elements|
    && (forall j :: 0 <= j < |elements| ==> origin[j] < |dequeued|)
    && (forall j, k :: 0 <= j < |elements| && 0 <= k < origin[j] && k < |dequeued| ==> DeclName(s, dequeued[k]) != elements[j].name)
    && (forall k :: 0 <= k < |dequeued| ==> DeclName(s, dequeued[k]) in names)
  }

  /** The global declarations are dequeued first, in order, each making one element. */
  ghost predicate GlobalPhase(s: SchemaSet, pending: seq<DeclId>, dequeued: seq<DeclId>, count: nat, origin: seq<nat>) {
    var globals := s.globalElements;
    && (forall k :: 0 <= k < |dequeued| && k < |globals| ==> dequeued[k] == globals[k])
    && (forall j :: 0 <= j < |origin| && j < |globals| ==> origin[j] == j)
    && (|dequeued| <= |globals| ==>
          && count == |dequeued|
          && |globals| - |dequeued| <= |pending| && pending[..|globals| - |dequeued|] == globals[|dequeued|..])
    && (|dequeued| > |globals| ==> count >= |globals|)
  }

  /**
   * The queue past the globals holds children of built elements; every child name is
   * either materialised or still queued; every element past the globals is a child of
   * an earlier one.
   */
  ghost predicate Frontier(s: SchemaSet, pending: seq<DeclId>, dequeued: seq<DeclId>, elements: seq<Element>, names: set<XName>)
    requires forall k :: 0 <= k < |pending| ==> pending[k] in s.elements
  {
    var globals := s.globalElements;
    && (forall k :: 0 <= k < |pending| && |dequeued| + k >= |globals| ==> DeclName(s, pending[k]) in ChildNames(elements))
    && (forall c :: c in ChildNames(elements) ==> c in names + DeclNames(s, pending))
    && (forall j :: |globals| <= j < |elements| ==> elements[j].name in ChildNames(elements[..j]))
  }

  lemma {:induction false} FrontierSkip(s: SchemaSet, pending: seq<DeclId>, dequeued: seq<DeclId>, elements: seq<Element>, names: set<XName>)
    requires forall k :: 0 <= k < |pending| ==> pending[k] in s.elements
    requires Frontier(s, pending, dequeued, elements, names)
    requires pending != [] && DeclName(s, pending[0]) in names
    ensures Frontier(s, pending[1..], dequeued + [pending[0]], elements, names)
  {
    assert forall k :: 0 < k < |pending| ==> pending[1..][k - 1] == pending[k];
    forall c | c in ChildNames(elements) ensures c in names + DeclNames(s, pending[1..]) {
      if c !in names {
        var k :| 0 <= k < |pending| && c == DeclName(s, pending[k]);
        assert k > 0;
        assert c == DeclName(s, pending[1..][k - 1]);
      }
    }
  }

  lemma {:induction false} BuiltSkip(s: SchemaSet, dequeued: seq<DeclId>, elements: seq<Element>, origin: seq<nat>, x: DeclId)
    requires Compiled(s) && Built(s, dequeued, elements, origin) && x in s.elements
    ensures Built(s, dequeued + [x], elements, origin)
  {
    var dequeued' := dequeued + [x];
    assert forall k :: 0 <= k < |dequeued| ==> dequeued'[k] == dequeued[k];
  }

  lemma {:induction false} FirstWinsSkip(s: SchemaSet, dequeued: seq<DeclId>, elements: seq<Element>, names: set<XName>, origin: seq<nat>, x: DeclId)
    requires forall k :: 0 <= k < |dequeued| ==> dequeued[k] in s.elements
    requires FirstWins(s, dequeued, elements, names, origin)
    requires x in s.elements && DeclName(s, x) in names
    ensures forall k :: 0 <= k < |dequeued + [x]| ==> (dequeued + [x])[k] in s.elements
    ensures FirstWins(s, dequeued + [x], elements, names, origin)
  {
    var dequeued' := dequeued + [x];
    assert forall k :: 0 <= k < |dequeued| ==> dequeued'[k] == dequeued[k];
  }

  lemma {:induction false} GlobalPhaseSkip(s: SchemaSet, pending: seq<DeclId>, dequeued: seq<DeclId>, count: nat, origin: seq<nat>)
    requires GlobalPhase(s, pending, dequeued, count, origin)
    requires pending != [] && |dequeued| >= |s.globalElements|
    ensures GlobalPhase(s, pending[1..], dequeued + [pending[0]], count, origin)
  {
    var dequeued' := dequeued + [pending[0]];
    assert forall k :: 0 <= k < |dequeued| ==> dequeued'[k] == dequeued[k];
  }

  /** Appending an element adds exactly its children to the child names. */
  lemma {:induction false} ChildNamesAppend(es: seq<Element>, e: Element)
    ensures ChildNames(es + [e]) == ChildNames(es) + ToSet(e.children)
  {
    var es' := es + [e];
    forall c | c in ChildNames(es') ensures c in ChildNames(es) + ToSet(e.children) {
      var j :| 0 <= j < |es'| && c in es'[j].children;
      if j < |es| {
        assert c in es[j].children;
      }
    }
    forall c | c in ChildNames(es) + ToSet(e.children) ensures c in ChildNames(es') {
      if c in ChildNames(es) {
        var j :| 0 <= j < |es| && c in es[j].children;
        assert c in es'[j].children;
      } else {
        assert c in es'[|es|].children;
      }
    }
  }

  /** After the step, every queued declaration past the globals is a child of a built element. */
  lemma {:induction false} QueueStaysChildren(s: SchemaSet, pending: seq<DeclId>, dequeued: seq<DeclId>, elements: seq<Element>,
                           e: Element, yielded: seq<DeclId>)
    requires forall k :: 0 <= k < |pending| ==> pending[k] in s.elements
    requires forall k :: 0 <= k < |yielded| ==> yielded[k] in s.elements
    requires pending != []
    requires forall k :: 0 <= k < |pending| && |dequeued| + k >= |s.globalElements| ==> DeclName(s, pending[k]) in ChildNames(elements)
    requires ToSet(e.children) == DeclNames(s, yielded)
    ensures var pending' := pending[1..] + yielded;
            forall k :: 0 <= k < |pending'| && |dequeued| + 1 + k >= |s.globalElements| ==>
              pending'[k] in s.elements && DeclName(s, pending'[k]) in ChildNames(elements + [e])
  {
    var pending' := pending[1..] + yielded;
    ChildNamesAppend(elements, e);
    forall k | 0 <= k < |pending'| && |dequeued| + 1 + k >= |s.globalElements|
      ensures pending'[k] in s.elements && DeclName(s, pending'[k]) in ChildNames(elements + [e])
    {
      if k >= |pending| - 1 {
        assert pending'[k] == yielded[k - |pending| + 1];
        assert DeclName(s, yielded[k - |pending| + 1]) in DeclNames(s, yielded);
      } else {
        assert pending'[k] == pending[k + 1];
      }
    }
  }

  /** After the step, every child name is materialised or still queued. */
  lemma {:induction false} ChildrenStayCovered(s: SchemaSet, pending: seq<DeclId>, elements: seq<Element>, names: set<XName>,
                            e: Element, yielded: seq<DeclId>)
    requires forall k :: 0 <= k < |pending| ==> pending[k] in s.elements
    requires forall k :: 0 <= k < |yielded| ==> yielded[k] in s.elements
    requires pending != [] && e.name == DeclName(s, pending[0])
    requires forall c :: c in ChildNames(elements) ==> c in names + DeclNames(s, pending)
    requires ToSet(e.children) == DeclNames(s, yielded)
    ensures forall k :: 0 <= k < |pending[1..] + yielded| ==> (pending[1..] + yielded)[k] in s.elements
    ensures forall c :: c in ChildNames(elements + [e]) ==> c in names + {e.name} + DeclNames(s, pending[1..] + yielded)
  {
    var pending' := pending[1..] + yielded;
    var names' := names + {e.name};
    assert forall k :: 0 <= k < |pending| - 1 ==> pending'[k] == pending[k + 1];
    assert forall k :: 0 <= k < |yielded| ==> pending'[|pending| - 1 + k] == yielded[k];
    ChildNamesAppend(elements, e);
    forall c | c in ChildNames(elements + [e]) ensures c in names' + DeclNames(s, pending') {
      if c in ToSet(e.children) {
        var i :| 0 <= i < |yielded| && c == DeclName(s, yielded[i]);
        assert c == DeclName(s, pending'[|pending| - 1 + i]);
      } else if c !in names' {
        var k :| 0 <= k < |pending| && c == DeclName(s, pending[k]);
        assert k > 0;
        assert c == DeclName(s, pending'[k - 1]);
      }
    }
  }

  lemma {:induction false} FrontierAdd(s: SchemaSet, pending: seq<DeclId>, dequeued: seq<DeclId>, elements: seq<Element>, names: set<XName>,
                    e: Element, yielded: seq<DeclId>)
    requires forall k :: 0 <= k < |pending| ==> pending[k] in s.elements
    requires forall k :: 0 <= k < |yielded| ==> yielded[k] in s.elements
    requires Frontier(s, pending, dequeued, elements, names)
    requires pending != [] && e.name == DeclName(s, pending[0])
    requires ToSet(e.children) == DeclNames(s, yielded)
    requires |elements| >= |s.globalElements| ==> |dequeued| >= |s.globalElements|
    ensures forall k :: 0 <= k < |pending[1..] + yielded| ==> (pending[1..] + yielded)[k] in s.elements
    ensures Frontier(s, pending[1..] + yielded, dequeued + [pending[0]], elements + [e], names + {e.name})
  {
    var elements' := elements + [e];
    QueueStaysChildren(s, pending, dequeued, elements, e, yielded);
    ChildrenStayCovered(s, pending, elements, names, e, yielded);
    ChildNamesAppend(elements, e);
    assert forall j :: 0 <= j <= |elements| ==> elements'[..j] == elements[..j];
  }

  lemma {:induction false} BuiltAdd(s: SchemaSet, dequeued: seq<DeclId>, elements: seq<Element>, origin: seq<nat>, x: DeclId)
    requires Compiled(s) && Built(s, dequeued, elements, origin)
    requires x in s.elements && ParseElement(s, x, |elements| < |s.globalElements|).Ok?
    ensures Built(s, dequeued + [x], elements + [ParseElement(s, x, |elements| < |s.globalElements|).value.element], origin + [|dequeued| as nat])
  {
    var dequeued' := dequeued + [x];
    var elements' := elements + [ParseElement(s, x, |elements| < |s.globalElements|).value.element];
    var origin' := origin + [|dequeued| as nat];
    assert forall k :: 0 <= k < |dequeued| ==> dequeued'[k] == dequeued[k];
    forall j | 0 <= j < |elements'|
      ensures && origin'[j] < |dequeued'|
              && ParseElement(s, dequeued'[origin'[j]], j < |s.globalElements|).Ok?
              && elements'[j] == ParseElement(s, dequeued'[origin'[j]], j < |s.globalElements|).value.element
    {
      if j < |elements| {
        assert origin'[j] == origin[j] && elements'[j] == elements[j] && dequeued'[origin[j]] == dequeued[origin[j]];
      }
    }
    IncreasingAppend(origin, |dequeued|);
  }

  lemma {:induction false} FirstWinsAdd(s: SchemaSet, dequeued: seq<DeclId>, elements: seq<Element>, names: set<XName>, origin: seq<nat>, x: DeclId, e: Element)
    requires forall k :: 0 <= k < |dequeued| ==> dequeued[k] in s.elements
    requires FirstWins(s, dequeued, elements, names, origin)
    requires x in s.elements && e.name == DeclName(s, x) && e.name !in names
    ensures forall k :: 0 <= k < |dequeued + [x]| ==> (dequeued + [x])[k] in s.elements
    ensures FirstWins(s, dequeued + [x], elements + [e], names + {e.name}, origin + [|dequeued| as nat])
  {
    var dequeued' := dequeued + [x];
    var elements' := elements + [e];
    var names' := names + {e.name};
    var origin' := origin + [|dequeued| as nat];
    assert forall k :: 0 <= k < |dequeued| ==> dequeued'[k] == dequeued[k];
    forall j, k | 0 <= j < |elements'| && 0 <= k < origin'[j] && k < |dequeued'|
      ensures DeclName(s, dequeued'[k]) != elements'[j].name
    {
      if j == |elements| {
        assert dequeued'[k] == dequeued[k] && elements'[j] == e;
        assert DeclName(s, dequeued[k]) in names;
      } else {
        assert origin'[j] == origin[j] && elements'[j] == elements[j];
      }
    }
  }

  lemma {:induction false} NamesAdd(s: SchemaSet, elements: seq<Element>, names: set<XName>, e: Element)
    requires NamesKept(s, elements, names) && e.name !in names && e.name in Universe(s)
    ensures NamesKept(s, elements + [e], names + {e.name})
  {
    var elements' := elements + [e];
    assert forall j :: 0 <= j < |elements| ==> elements'[j] == elements[j];
    assert ElementNames(elements') == names + {e.name} by {
      forall n | n in ElementNames(elements') ensures n in names + {e.name} {
        var j :| 0 <= j < |elements'| && n == elements'[j].name;
        if j < |elements| {
          assert n == elements[j].name;
        }
      }
      forall n | n in names + {e.name} ensures n in ElementNames(elements') {
        if n in names {
          var j :| 0 <= j < |elements| && n == elements[j].name;
          assert n == elements'[j].name;
        } else {
          assert n == elements'[|elements|].name;
        }
      }
    }
  }

  lemma {:induction false} GlobalPhaseAdd(s: SchemaSet, pending: seq<DeclId>, dequeued: seq<DeclId>, count: nat, origin: seq<nat>, yielded: seq<DeclId>)
    requires GlobalPhase(s, pending, dequeued, count, origin) && count == |origin|
    requires pending != [] && (|dequeued| < |s.globalElements| ==> pending[0] == s.globalElements[|dequeued|])
    ensures GlobalPhase(s, pending[1..] + yielded, dequeued + [pending[0]], count + 1, origin + [|dequeued| as nat])
  {
    var globals := s.globalElements;
    var pending' := pending[1..] + yielded;
    var dequeued' := dequeued + [pending[0]];
    assert forall k :: 0 <= k < |dequeued| ==> dequeued'[k] == dequeued[k];
    if |dequeued| < |globals| {
      assert pending'[..|globals| - |dequeued'|] == pending[..|globals| - |dequeued|][1..];
    }
  }

  /**
   * What declaration `d` hands back for the queue when it is parsed: the element
   * particles its complex type's content yields; nothing for a simple type or when the
   * content fails.
   */
  function DeclYield(s: SchemaSet, d: DeclId): seq<DeclId>
    requires Compiled(s) && d in s.elements
  {
    match s.elements[d].elementSchemaType
    case SimpleType => []
    case ComplexType(_, p) =>
      assert DeclResolves(s, s.elements[d]);
      match ParseContent(s, p)
      case Ok(ys) => ys
      case Err(_) => []
  }

  /** What a successful `ParseElement` hands back for the queue is `DeclYield`, whatever the top-level flag. */
  lemma {:induction false} YieldIgnoresFlag(s: SchemaSet, d: DeclId, isTopLevel: bool)
    requires Compiled(s) && d in s.elements && ParseElement(s, d, isTopLevel).Ok?
    ensures ParseElement(s, d, isTopLevel).value.yielded == DeclYield(s, d)
  {
    if s.elements[d].elementSchemaType.ComplexType? {
      ParseElementComplex(s, d, isTopLevel);
    }
  }

  /**
   * Everything the loop enqueues while it dequeues `ds`, in order: a declaration whose
   * name is new at its position contributes what it yields, one whose name was dequeued
   * before contributes nothing.
   */
  function Expand(s: SchemaSet, ds: seq<DeclId>): seq<DeclId>
    requires Compiled(s) && forall k :: 0 <= k < |ds| ==> ds[k] in s.elements
    decreases |ds|
  {
    if ds == [] then []
    else
      var init, x := ds[..|ds| - 1], ds[|ds| - 1];
      Expand(s, init) + (if DeclName(s, x) in DeclNames(s, init) then [] else DeclYield(s, x))
  }

  /**
   * The queue discipline: the declarations dequeued so far followed by those pending
   * are the global declarations followed by everything enqueued since, in order.
   */
  ghost predicate Fifo(s: SchemaSet, pending: seq<DeclId>, dequeued: seq<DeclId>)
    requires Compiled(s) && forall k :: 0 <= k < |dequeued| ==> dequeued[k] in s.elements
  {
    dequeued + pending == s.globalElements + Expand(s, dequeued)
  }

  /**
   * Every dequeued declaration had been enqueued before it was dequeued: position `k`
   * falls within the global declarations and what the first `k` dequeued declarations
   * enqueued, so no declaration is enqueued by itself or by one dequeued after it.
   */
  ghost predicate Causal(s: SchemaSet, dequeued: seq<DeclId>)
    requires Compiled(s) && forall k :: 0 <= k < |dequeued| ==> dequeued[k] in s.elements
  {
    forall k :: 0 <= k < |dequeued| ==> k < |s.globalElements| + |Expand(s, dequeued[..k])|
  }

  /** Dequeuing the head of a first-in first-out queue that is not empty keeps the order causal. */
  lemma {:induction false} CausalStep(s: SchemaSet, pending: seq<DeclId>, dequeued: seq<DeclId>)
    requires Compiled(s) && forall k :: 0 <= k < |dequeued| ==> dequeued[k] in s.elements
    requires Fifo(s, pending, dequeued) && Causal(s, dequeued)
    requires pending != [] && pending[0] in s.elements
    ensures forall k :: 0 <= k < |dequeued + [pending[0]]| ==> (dequeued + [pending[0]])[k] in s.elements
    ensures Causal(s, dequeued + [pending[0]])
  {
    var ds := dequeued + [pending[0]];
    forall k | 0 <= k < |ds|
      ensures k < |s.globalElements| + |Expand(s, ds[..k])|
    {
      if k < |dequeued| {
        assert ds[..k] == dequeued[..k];
      } else {
        assert ds[..k] == dequeued;
        assert |dequeued + pending| == |s.globalElements + Expand(s, dequeued)|;
      }
    }
  }

  /** Dequeuing one more declaration extends `Expand` by that declaration's contribution. */
  lemma {:induction false} ExpandStep(s: SchemaSet, ds: seq<DeclId>, x: DeclId)
    requires Compiled(s) && x in s.elements && forall k :: 0 <= k < |ds| ==> ds[k] in s.elements
    ensures forall k :: 0 <= k < |ds + [x]| ==> (ds + [x])[k] in s.elements
    ensures Expand(s, ds + [x]) == Expand(s, ds) + (if DeclName(s, x) in DeclNames(s, ds) then [] else DeclYield(s, x))
  {
    assert (ds + [x])[..|ds|] == ds;
  }

  /** Dequeuing a declaration whose name was dequeued before enqueues nothing. */
  lemma {:induction false} FifoSkip(s: SchemaSet, pending: seq<DeclId>, dequeued: seq<DeclId>)
    requires Compiled(s) && forall k :: 0 <= k < |dequeued| ==> dequeued[k] in s.elements
    requires Fifo(s, pending, dequeued)
    requires pending != [] && pending[0] in s.elements && DeclName(s, pending[0]) in DeclNames(s, dequeued)
    ensures forall k :: 0 <= k < |dequeued + [pending[0]]| ==> (dequeued + [pending[0]])[k] in s.elements
    ensures Fifo(s, pending[1..], dequeued + [pending[0]])
  {
    ExpandStep(s, dequeued, pending[0]);
    QueueStep(dequeued, pending, s.globalElements, Expand(s, dequeued), []);
    assert pending[1..] + [] == pending[1..] && Expand(s, dequeued) + [] == Expand(s, dequeued);
  }

  /** Dequeuing a declaration with a new name enqueues what it yields at the back. */
  lemma {:induction false} FifoAdd(s: SchemaSet, pending: seq<DeclId>, dequeued: seq<DeclId>)
    requires Compiled(s) && forall k :: 0 <= k < |dequeued| ==> dequeued[k] in s.elements
    requires Fifo(s, pending, dequeued)
    requires pending != [] && pending[0] in s.elements && DeclName(s, pending[0]) !in DeclNames(s, dequeued)
    ensures forall k :: 0 <= k < |dequeued + [pending[0]]| ==> (dequeued + [pending[0]])[k] in s.elements
    ensures Fifo(s, pending[1..] + DeclYield(s, pending[0]), dequeued + [pending[0]])
  {
    ExpandStep(s, dequeued, pending[0]);
    QueueStep(dequeued, pending, s.globalElements, Expand(s, dequeued), DeclYield(s, pending[0]));
  }

  /** What the first `i` dequeued declarations enqueue is a prefix of what all of them enqueue. */
  lemma {:induction false} ExpandPrefix(s: SchemaSet, ds: seq<DeclId>, i: nat)
    requires Compiled(s) && forall k :: 0 <= k < |ds| ==> ds[k] in s.elements
    requires i <= |ds|
    ensures forall k :: 0 <= k < |ds[..i]| ==> ds[..i][k] in s.elements
    ensures Expand(s, ds[..i]) <= Expand(s, ds)
    decreases |ds| - i
  {
    if i < |ds| {
      var init := ds[..|ds| - 1];
      ExpandPrefix(s, init, i);
      assert init[..i] == ds[..i];
    } else {
      assert ds[..i] == ds;
    }
  }

  /**
   * In a first-in first-out order that has run dry, the global declarations come first,
   * followed by what the first `i` dequeued declarations enqueued, in that order.
   */
  lemma {:induction false} FifoPrefix(s: SchemaSet, ds: seq<DeclId>, i: nat)
    requires Compiled(s) && forall k :: 0 <= k < |ds| ==> ds[k] in s.elements
    requires Fifo(s, [], ds) && i <= |ds|
    ensures forall k :: 0 <= k < |ds[..i]| ==> ds[..i][k] in s.elements
    ensures s.globalElements + Expand(s, ds[..i]) <= ds
  {
    ExpandPrefix(s, ds, i);
    assert ds + [] == ds;
  }

  /** The traversal state of `GetXmlElements` satisfies every part of the invariant. */
  ghost predicate Traversal(s: SchemaSet, pending: seq<DeclId>, dequeued: seq<DeclId>, elements: seq<Element>, names: set<XName>, origin: seq<nat>)
    requires Compiled(s)
  {
    && (forall k :: 0 <= k < |pending| ==> pending[k] in s.elements)
    && Built(s, dequeued, elements, origin)
    && NamesKept(s, elements, names)
    && FirstWins(s, dequeued, elements, names, origin)
    && GlobalPhase(s, pending, dequeued, |elements|, origin)
    && Frontier(s, pending, dequeued, elements, names)
  }

  /** A declaration that parses has no failing content. */
  lemma {:induction false} ParsedNotFailing(s: SchemaSet, d: DeclId, isTopLevel: bool)
    requires Compiled(s) && d in s.elements && ParseElement(s, d, isTopLevel).Ok?
    ensures forall e :: !ContentFails(s, d, e)
  {
    if s.elements[d].elementSchemaType.ComplexType? {
      ParseElementComplex(s, d, isTopLevel);
    }
  }

  /** The name of a declaration dequeued before position `k` is among the names dequeued before `k`. */
  lemma {:induction false} NameInPrefix(s: SchemaSet, ds: seq<DeclId>, i: nat, k: nat)
    requires forall j :: 0 <= j < |ds| ==> ds[j] in s.elements
    requires i < k <= |ds|
    ensures forall j :: 0 <= j < |ds[..k]| ==> ds[..k][j] in s.elements
    ensures DeclName(s, ds[i]) in DeclNames(s, ds[..k])
  {
    assert ds[..k][i] == ds[i];
  }

  /**
   * Every declaration dequeued so far whose name was new when it was dequeued has been
   * parsed, so none of them has failing content.
   */
  lemma {:induction false} NewNamesParsed(s: SchemaSet, dequeued: seq<DeclId>, elements: seq<Element>, names: set<XName>, origin: seq<nat>)
    requires Compiled(s) && Built(s, dequeued, elements, origin)
    requires NamesKept(s, elements, names) && FirstWins(s, dequeued, elements, names, origin)
    ensures forall k, e :: 0 <= k < |dequeued| && DeclName(s, dequeued[k]) !in DeclNames(s, dequeued[..k]) ==>
              !ContentFails(s, dequeued[k], e)
  {
    forall k | 0 <= k < |dequeued| && DeclName(s, dequeued[k]) !in DeclNames(s, dequeued[..k])
      ensures forall e :: !ContentFails(s, dequeued[k], e)
    {
      NewNameParsed(s, dequeued, elements, names, origin, k);
    }
  }

  /** The declaration dequeued at `k`, its name new then, is the one its element was built from. */
  lemma {:induction false} NewNameParsed(s: SchemaSet, dequeued: seq<DeclId>, elements: seq<Element>, names: set<XName>, origin: seq<nat>, k: nat)
    requires Compiled(s) && Built(s, dequeued, elements, origin)
    requires NamesKept(s, elements, names) && FirstWins(s, dequeued, elements, names, origin)
    requires k < |dequeued| && DeclName(s, dequeued[k]) !in DeclNames(s, dequeued[..k])
    ensures forall e :: !ContentFails(s, dequeued[k], e)
  {
    BuiltNames(s, dequeued, elements, origin);
    var name := DeclName(s, dequeued[k]);
    assert name in ElementNames(elements);
    var j :| 0 <= j < |elements| && elements[j].name == name;
    var o := origin[j];
    assert elements[j].name == DeclName(s, dequeued[o]);
    assert !(k < o);
    if o < k {
      NameInPrefix(s, dequeued, o, k);
    }
    ParsedNotFailing(s, dequeued[k], j < |s.globalElements|);
  }

  /** The next declaration dequeued continues the first-in first-out order. */
  lemma {:induction false} NextInQueue(s: SchemaSet, pending: seq<DeclId>, dequeued: seq<DeclId>)
    requires Compiled(s) && forall k :: 0 <= k < |dequeued| ==> dequeued[k] in s.elements
    requires Fifo(s, pending, dequeued) && pending != []
    ensures dequeued + [pending[0]] <= s.globalElements + Expand(s, dequeued)
  {
    assert dequeued + [pending[0]] == (dequeued + pending)[..|dequeued| + 1];
  }

  /** `ParseElement` fails only when a complex type's content particle does. */
  lemma {:induction false} ParseElementFailure(s: SchemaSet, d: DeclId, isTopLevel: bool)
    requires Compiled(s) && d in s.elements && ParseElement(s, d, isTopLevel).Err?
    ensures ContentFails(s, d, ParseElement(s, d, isTopLevel).error)
  {
    ParseElementComplex(s, d, isTopLevel);
  }
}
