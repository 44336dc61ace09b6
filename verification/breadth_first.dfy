/**
 * The invariant of the breadth-first traversal in `GetXmlElements`, assembled from its
 * parts, and the lemmas that show each step of the loop keeps it.
 */
module BreadthFirst {
  import opened Outcomes
  import opened Collections
  import opened XNames
  import opened Schema
  import opened SimpleXml
  import opened Extensions
  import opened ParticleWalker
  import opened ElementParser
  import opened TraversalInvariant

  /**
   * The loop invariant of `GetXmlElements`: the schema is compiled, the traversal
   * state satisfies `Traversal`, and the queue is first-in first-out (`Fifo`) with every
   * declaration enqueued before it was dequeued (`Causal`).
   */
  ghost predicate LoopInvariant(s: SchemaSet, pending: seq<DeclId>, dequeued: seq<DeclId>, elements: seq<Element>, names: set<XName>, origin: seq<nat>) {
    Compiled(s) && Traversal(s, pending, dequeued, elements, names, origin) && Fifo(s, pending, dequeued) && Causal(s, dequeued)
  }

  /**
   * The traversal stopped at the first failure in first-in first-out order: `dequeued`
   * is the start of the queue order, each of its declarations enqueued before it was
   * dequeued, its last declaration has a name not dequeued before and content failing
   * with `e`, and every earlier declaration with a new name parses.
   */
  ghost predicate FirstFailure(s: SchemaSet, dequeued: seq<DeclId>, e: ParseError) {
    && Compiled(s) && |dequeued| > 0
    && (forall k :: 0 <= k < |dequeued| ==> dequeued[k] in s.elements)
    && var n := |dequeued| - 1;
       assert forall k :: 0 <= k < n ==> dequeued[..n][k] == dequeued[k];
       && dequeued <= s.globalElements + Expand(s, dequeued[..n])
       && Causal(s, dequeued)
       && DeclName(s, dequeued[n]) !in DeclNames(s, dequeued[..n])
       && ContentFails(s, dequeued[n], e)
       && forall k, e' :: 0 <= k < n && DeclName(s, dequeued[k]) !in DeclNames(s, dequeued[..k]) ==>
            !ContentFails(s, dequeued[k], e')
  }

  /**
   * `dequeued` is a whole first-in first-out order of the traversal, run dry: the global
   * declarations, then what each dequeued declaration with a new name yields, with every
   * declaration enqueued before it was dequeued.
   */
  ghost predicate QueueOrder(s: SchemaSet, dequeued: seq<DeclId>) {
    && Compiled(s)
    && (forall k :: 0 <= k < |dequeued| ==> dequeued[k] in s.elements)
    && dequeued == s.globalElements + Expand(s, dequeued)
    && Causal(s, dequeued)
  }

  /** A first-in first-out queue that has run dry leaves a whole `QueueOrder`. */
  lemma {:induction false} QueueDrained(s: SchemaSet, dequeued: seq<DeclId>, elements: seq<Element>, names: set<XName>, origin: seq<nat>)
    requires LoopInvariant(s, [], dequeued, elements, names, origin)
    ensures QueueOrder(s, dequeued)
  {
    assert dequeued + [] == dequeued;
  }

  lemma {:induction false} TraversalStart(s: SchemaSet)
    requires Compiled(s)
    ensures Traversal(s, s.globalElements, [], [], {}, [])
    ensures Fifo(s, s.globalElements, []) && Causal(s, [])
  {
    assert ChildNames([]) == {};
    assert [] + s.globalElements == s.globalElements + Expand(s, []);
  }

  /** The dictionary's keys are exactly the names of the declarations dequeued so far. */
  lemma {:induction false} NamesDequeued(s: SchemaSet, pending: seq<DeclId>, dequeued: seq<DeclId>, elements: seq<Element>, names: set<XName>, origin: seq<nat>)
    requires Compiled(s) && Traversal(s, pending, dequeued, elements, names, origin)
    ensures names == DeclNames(s, dequeued)
  {
    BuiltNames(s, dequeued, elements, origin);
    forall n | n in names ensures n in DeclNames(s, dequeued) {
      var j :| 0 <= j < |elements| && n == elements[j].name;
      assert n == DeclName(s, dequeued[origin[j]]);
    }
    forall n | n in DeclNames(s, dequeued) ensures n in names {
      var k :| 0 <= k < |dequeued| && n == DeclName(s, dequeued[k]);
    }
  }

  /** While global declarations are being dequeued, each one's name is new. */
  lemma {:induction false} GlobalIsFresh(s: SchemaSet, pending: seq<DeclId>, dequeued: seq<DeclId>, elements: seq<Element>, names: set<XName>, origin: seq<nat>)
    requires Compiled(s) && Traversal(s, pending, dequeued, elements, names, origin)
    requires |dequeued| < |s.globalElements|
    ensures pending != [] && pending[0] == s.globalElements[|dequeued|]
    ensures DeclName(s, pending[0]) !in names
  {
    var globals := s.globalElements;
    var n := |dequeued|;
    assert pending[0] == pending[..|globals| - n][0] == globals[n];
    forall j | 0 <= j < |elements| ensures elements[j].name != DeclName(s, globals[n]) {
      assert origin[j] == j && dequeued[j] == globals[j];
      assert elements[j].name == DeclName(s, globals[j]);
      assert s.elements[globals[j]].qualifiedName != s.elements[globals[n]].qualifiedName;
    }
  }

  /** Dequeuing a declaration whose name is already materialised only shortens the queue. */
  lemma {:induction false} TraversalSkip(s: SchemaSet, pending: seq<DeclId>, dequeued: seq<DeclId>, elements: seq<Element>, names: set<XName>, origin: seq<nat>)
    requires Compiled(s) && Traversal(s, pending, dequeued, elements, names, origin)
    requires pending != [] && DeclName(s, pending[0]) in names
    ensures Traversal(s, pending[1..], dequeued + [pending[0]], elements, names, origin)
  {
    if |dequeued| < |s.globalElements| {
      GlobalIsFresh(s, pending, dequeued, elements, names, origin);
      assert false;
    }
    BuiltSkip(s, dequeued, elements, origin, pending[0]);
    FirstWinsSkip(s, dequeued, elements, names, origin, pending[0]);
    GlobalPhaseSkip(s, pending, dequeued, |elements|, origin);
    FrontierSkip(s, pending, dequeued, elements, names);
  }

  /** Dequeuing a declaration with a new name appends its element and enqueues what it yields. */
  lemma {:induction false} TraversalAdd(s: SchemaSet, pending: seq<DeclId>, dequeued: seq<DeclId>, elements: seq<Element>, names: set<XName>, origin: seq<nat>)
    requires Compiled(s) && Traversal(s, pending, dequeued, elements, names, origin)
    requires pending != [] && DeclName(s, pending[0]) !in names
    requires ParseElement(s, pending[0], |elements| < |s.globalElements|).Ok?
    ensures var p := ParseElement(s, pending[0], |elements| < |s.globalElements|).value;
            && p.element.name in Universe(s) - names
            && Traversal(s, pending[1..] + p.yielded, dequeued + [pending[0]], elements + [p.element],
                         names + {p.element.name}, origin + [|dequeued| as nat])
  {
    var globals := s.globalElements;
    var x := pending[0];
    var p := ParseElement(s, x, |elements| < |globals|).value;
    var e := p.element;
    var pending' := pending[1..] + p.yielded;
    var dequeued' := dequeued + [x];
    var elements' := elements + [e];
    var names' := names + {e.name};
    var origin' := origin + [|dequeued| as nat];
    BuiltAdd(s, dequeued, elements, origin, x);
    FirstWinsAdd(s, dequeued, elements, names, origin, x, e);
    assert e.name in Universe(s);
    NamesAdd(s, elements, names, e);
    if |dequeued| < |globals| {
      GlobalIsFresh(s, pending, dequeued, elements, names, origin);
    }
    GlobalPhaseAdd(s, pending, dequeued, |elements|, origin, p.yielded);
    FrontierAdd(s, pending, dequeued, elements, names, e, p.yielded);
  }

  /** Dequeuing a declaration whose name is already materialised keeps the queue first-in first-out. */
  lemma {:induction false} SkipKeepsFifo(s: SchemaSet, pending: seq<DeclId>, dequeued: seq<DeclId>, elements: seq<Element>, names: set<XName>, origin: seq<nat>)
    requires Compiled(s) && Traversal(s, pending, dequeued, elements, names, origin)
    requires Fifo(s, pending, dequeued) && Causal(s, dequeued)
    requires pending != [] && DeclName(s, pending[0]) in names
    ensures forall k :: 0 <= k < |dequeued + [pending[0]]| ==> (dequeued + [pending[0]])[k] in s.elements
    ensures Fifo(s, pending[1..], dequeued + [pending[0]]) && Causal(s, dequeued + [pending[0]])
  {
    NamesDequeued(s, pending, dequeued, elements, names, origin);
    FifoSkip(s, pending, dequeued);
    CausalStep(s, pending, dequeued);
  }

  /** Dequeuing a declaration with a new name enqueues what its element yields at the back. */
  lemma {:induction false} AddKeepsFifo(s: SchemaSet, pending: seq<DeclId>, dequeued: seq<DeclId>, elements: seq<Element>, names: set<XName>, origin: seq<nat>, isTopLevel: bool)
    requires Compiled(s) && Traversal(s, pending, dequeued, elements, names, origin)
    requires pending != [] && DeclName(s, pending[0]) !in names
    requires Fifo(s, pending, dequeued) && Causal(s, dequeued)
    requires ParseElement(s, pending[0], isTopLevel).Ok?
    ensures forall k :: 0 <= k < |dequeued + [pending[0]]| ==> (dequeued + [pending[0]])[k] in s.elements
    ensures Fifo(s, pending[1..] + ParseElement(s, pending[0], isTopLevel).value.yielded, dequeued + [pending[0]])
    ensures Causal(s, dequeued + [pending[0]])
  {
    NamesDequeued(s, pending, dequeued, elements, names, origin);
    FifoAdd(s, pending, dequeued);
    CausalStep(s, pending, dequeued);
    YieldIgnoresFlag(s, pending[0], isTopLevel);
  }

  /**
   * A new-named declaration that fails ends the traversal at the first failure in
   * first-in first-out order: every earlier declaration with a new name was parsed.
   */
  lemma {:induction false} FailureIsFirst(s: SchemaSet, pending: seq<DeclId>, dequeued: seq<DeclId>, elements: seq<Element>, names: set<XName>, origin: seq<nat>, e: ParseError)
    requires LoopInvariant(s, pending, dequeued, elements, names, origin)
    requires pending != [] && DeclName(s, pending[0]) !in names && ContentFails(s, pending[0], e)
    ensures FirstFailure(s, dequeued + [pending[0]], e)
  {
    NamesDequeued(s, pending, dequeued, elements, names, origin);
    NextInQueue(s, pending, dequeued);
    NewNamesParsed(s, dequeued, elements, names, origin);
    CausalStep(s, pending, dequeued);
    FirstFailureStep(s, dequeued, pending[0], e);
  }

  /** A traversal that stopped at `FirstFailure` stopped at a declaration whose content fails. */
  lemma {:induction false} FailureWitness(s: SchemaSet, dequeued: seq<DeclId>, e: ParseError)
    requires FirstFailure(s, dequeued, e)
    ensures exists d :: d in s.elements && ContentFails(s, d, e)
  {
    var d := dequeued[|dequeued| - 1];
    assert d in s.elements && ContentFails(s, d, e);
  }

  /** `FirstFailure` from its parts, for the declaration `x` dequeued after `dequeued`. */
  lemma {:induction false} FirstFailureStep(s: SchemaSet, dequeued: seq<DeclId>, x: DeclId, e: ParseError)
    requires Compiled(s) && x in s.elements && forall k :: 0 <= k < |dequeued| ==> dequeued[k] in s.elements
    requires dequeued + [x] <= s.globalElements + Expand(s, dequeued)
    requires forall k :: 0 <= k < |dequeued + [x]| ==> (dequeued + [x])[k] in s.elements
    requires Causal(s, dequeued + [x])
    requires DeclName(s, x) !in DeclNames(s, dequeued) && ContentFails(s, x, e)
    requires forall k, e' :: 0 <= k < |dequeued| && DeclName(s, dequeued[k]) !in DeclNames(s, dequeued[..k]) ==>
               !ContentFails(s, dequeued[k], e')
    ensures FirstFailure(s, dequeued + [x], e)
  {
    var ds := dequeued + [x];
    var n := |dequeued|;
    assert ds[..n] == dequeued;
    assert forall k :: 0 <= k < n ==> ds[k] == dequeued[k] && ds[..k] == dequeued[..k];
  }

  /** When the queue is empty the invariant gives the traversal's results. */
  lemma {:induction false} TraversalDone(s: SchemaSet, dequeued: seq<DeclId>, es: seq<Element>, names: set<XName>, origin: seq<nat>)
    requires Compiled(s) && Traversal(s, [], dequeued, es, names, origin)
    ensures forall i, j :: 0 <= i < j < |es| ==> es[i].name != es[j].name
    ensures forall j :: 0 <= j < |es| ==> ValidElement(es[j])
    ensures forall j :: 0 <= j < |es| ==> (es[j].isTopLevel <==> j < |s.globalElements|)
    ensures |s.globalElements| <= |es|
    ensures forall j :: 0 <= j < |s.globalElements| ==>
              ParseElement(s, s.globalElements[j], true).Ok? &&
              es[j] == ParseElement(s, s.globalElements[j], true).value.element
    ensures forall c :: c in ChildNames(es) ==> c in ElementNames(es)
    ensures forall j :: |s.globalElements| <= j < |es| ==> es[j].name in ChildNames(es[..j])
    ensures |origin| == |es|
    ensures forall i, j :: 0 <= i < j < |es| ==> origin[i] < origin[j]
    ensures forall j :: 0 <= j < |es| ==>
              && origin[j] < |dequeued| && dequeued[origin[j]] in s.elements
              && ParseElement(s, dequeued[origin[j]], j < |s.globalElements|).Ok?
              && es[j] == ParseElement(s, dequeued[origin[j]], j < |s.globalElements|).value.element
    ensures forall j, k :: 0 <= j < |es| && 0 <= k < origin[j] ==>
              dequeued[k] in s.elements && DeclName(s, dequeued[k]) != es[j].name
    ensures forall k :: 0 <= k < |dequeued| ==>
              dequeued[k] in s.elements && DeclName(s, dequeued[k]) in ElementNames(es)
  {
    forall j | 0 <= j < |s.globalElements|
      ensures ParseElement(s, s.globalElements[j], true).Ok? && es[j] == ParseElement(s, s.globalElements[j], true).value.element
    {
      assert origin[j] == j && dequeued[j] == s.globalElements[j];
    }
    assert DeclNames(s, []) == {};
  }
}
