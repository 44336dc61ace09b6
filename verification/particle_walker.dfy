/**
 * `ParseGroupBase` / `ParseGroupBaseInternal`: expand a sequence/choice group into
 * the element particles directly reachable through it, descending into nested groups
 * but never into elements. A set of processed groups, shared by the whole expansion
 * and never shrunk, makes every group contribute at most once, so cyclic groups end.
 *
 * The source yields lazily; its caller always consumes the whole sequence, so the
 * model computes it eagerly and threads the processed set through explicitly.
 */
module ParticleWalker {
  import opened Outcomes
  import opened Schema

  /** The exceptions the parser raises. */
  datatype ParseError =
    | SchemaNotCompiled              // InvalidOperationException
    | NotImplemented(typeName: string)  // NotImplementedException(particle type name)

  /** The element particles an expansion yielded, in order, and the processed set after it. */
  datatype Walk = Walk(found: seq<DeclId>, processed: set<GroupId>)

  predicate ItemsResolve(s: SchemaSet, items: seq<Item>) {
    forall i :: 0 <= i < |items| ==> ItemResolves(s, items[i])
  }

  /** `ParseGroupBaseInternal(group, processed)`. */
  function ParseGroupBaseInternal(s: SchemaSet, g: GroupId, processed: set<GroupId>): (r: Result<Walk, ParseError>)
    requires Compiled(s) && g in s.groups
    ensures r.Ok? ==> processed + {g} <= r.value.processed <= processed + s.groups.Keys
    ensures r.Ok? ==> forall i :: 0 <= i < |r.value.found| ==> r.value.found[i] in s.elements
    decreases s.groups.Keys - processed, 0
  {
    if g in processed then Ok(Walk([], processed))
    else ParseItems(s, s.groups[g], processed + {g})
  }

  /** The `foreach` over a group's items, from item `items[0]` on. */
  function ParseItems(s: SchemaSet, items: seq<Item>, processed: set<GroupId>): (r: Result<Walk, ParseError>)
    requires Compiled(s) && ItemsResolve(s, items)
    ensures r.Ok? ==> processed <= r.value.processed <= processed + s.groups.Keys
    ensures r.Ok? ==> forall i :: 0 <= i < |r.value.found| ==> r.value.found[i] in s.elements
    decreases s.groups.Keys - processed, 1, |items|
  {
    if items == [] then Ok(Walk([], processed))
    else
      assert ItemsResolve(s, items[1..]) by {
        forall i | 0 <= i < |items[1..]| ensures ItemResolves(s, items[1..][i]) {
          assert items[1..][i] == items[i + 1];
        }
      }
      assert ItemResolves(s, items[0]);
      match items[0]
      case SubGroup(h) =>
        var sub :- ParseGroupBaseInternal(s, h, processed);
        var rest :- ParseItems(s, items[1..], sub.processed);
        Ok(Walk(sub.found + rest.found, rest.processed))
      case ElementItem(d) =>
        var rest :- ParseItems(s, items[1..], processed);
        Ok(Walk([d] + rest.found, rest.processed))
      case AnyItem =>
        ParseItems(s, items[1..], processed)
      case GroupRefItem(_) =>
        Err(NotImplemented("XmlSchemaGroupRef"))
      case OtherItem(typeName) =>
        Err(NotImplemented(typeName))
  }

  /** `ParseGroupBase(group)`: one expansion, starting from a fresh processed set. */
  function ParseGroupBase(s: SchemaSet, g: GroupId): (r: Result<Walk, ParseError>)
    requires Compiled(s) && g in s.groups
    ensures r.Ok? ==> g in r.value.processed && r.value.processed <= s.groups.Keys
  {
    ParseGroupBaseInternal(s, g, {})
  }

  // ----- What an expansion yields -----

  /** The element particles among `items`, with multiplicity. */
  function ElementItems(items: seq<Item>): multiset<DeclId> {
    if items == [] then multiset{}
    else (if items[0].ElementItem? then multiset{items[0].decl} else multiset{}) + ElementItems(items[1..])
  }

  /** The element particles of the groups `hs`, each group counted once. */
  ghost function GroupSum(s: SchemaSet, hs: set<GroupId>): multiset<DeclId>
    decreases hs
  {
    if hs == {} then multiset{}
    else
      var h :| h in hs;
      (if h in s.groups then ElementItems(s.groups[h]) else multiset{}) + GroupSum(s, hs - {h})
  }

  lemma {:induction false} GroupSumRemove(s: SchemaSet, hs: set<GroupId>, x: GroupId)
    requires x in hs
    ensures GroupSum(s, hs) == (if x in s.groups then ElementItems(s.groups[x]) else multiset{}) + GroupSum(s, hs - {x})
    decreases hs
  {
    var h :| h in hs && GroupSum(s, hs) == (if h in s.groups then ElementItems(s.groups[h]) else multiset{}) + GroupSum(s, hs - {h});
    if h != x {
      GroupSumRemove(s, hs - {h}, x);
      GroupSumRemove(s, hs - {x}, h);
      assert hs - {h} - {x} == hs - {x} - {h};
    }
  }

  lemma {:induction false} GroupSumUnion(s: SchemaSet, a: set<GroupId>, b: set<GroupId>)
    requires a !! b
    ensures GroupSum(s, a + b) == GroupSum(s, a) + GroupSum(s, b)
    decreases a
  {
    if a == {} {
      assert a + b == b;
    } else {
      var x :| x in a;
      var own := if x in s.groups then ElementItems(s.groups[x]) else multiset{};
      GroupSumRemove(s, a + b, x);
      GroupSumRemove(s, a, x);
      assert a + b - {x} == (a - {x}) + b;
      GroupSumUnion(s, a - {x}, b);
      calc {
        GroupSum(s, a + b);
        own + GroupSum(s, (a - {x}) + b);
        own + (GroupSum(s, a - {x}) + GroupSum(s, b));
        (own + GroupSum(s, a - {x})) + GroupSum(s, b);
        GroupSum(s, a) + GroupSum(s, b);
      }
    }
  }

  /** Items 1.. of `items` resolve when all of `items` do. */
  lemma {:induction false} ItemsTailResolve(s: SchemaSet, items: seq<Item>)
    requires items != [] && ItemsResolve(s, items)
    ensures ItemsResolve(s, items[1..]) && ItemResolves(s, items[0])
  {
    forall i | 0 <= i < |items[1..]| ensures ItemResolves(s, items[1..][i]) {
      assert items[1..][i] == items[i + 1];
    }
  }

  /**
   * Two expansions in a row, the second starting from the processed set the first left:
   * together they find the groups both newly processed.
   */
  lemma {:induction false} FoundConcat(s: SchemaSet, processed: set<GroupId>, mid: set<GroupId>, final: set<GroupId>,
                    first: seq<DeclId>, second: seq<DeclId>, own: multiset<DeclId>)
    requires processed <= mid <= final
    requires multiset(first) == GroupSum(s, mid - processed)
    requires multiset(second) == own + GroupSum(s, final - mid)
    ensures multiset(first + second) == own + GroupSum(s, final - processed)
  {
    assert final - processed == (mid - processed) + (final - mid);
    GroupSumUnion(s, mid - processed, final - mid);
  }

  /**
   * `ParseItems` finds the element items of `items` and of every group it newly
   * processes, each group counted once.
   */
  lemma {:induction false} ParseItemsFound(s: SchemaSet, items: seq<Item>, processed: set<GroupId>)
    requires Compiled(s) && ItemsResolve(s, items)
    ensures var r := ParseItems(s, items, processed);
            r.Ok? ==> multiset(r.value.found) == ElementItems(items) + GroupSum(s, r.value.processed - processed)
    decreases s.groups.Keys - processed, 1, |items|
  {
    if items != [] {
      ItemsTailResolve(s, items);
      var r := ParseItems(s, items, processed);
      if items[0].SubGroup? {
        var h := items[0].group;
        var sub := ParseGroupBaseInternal(s, h, processed);
        ParseGroupBaseInternalFound(s, h, processed);
        if sub.Ok? {
          var rest := ParseItems(s, items[1..], sub.value.processed);
          ParseItemsFound(s, items[1..], sub.value.processed);
          if rest.Ok? {
            assert r == Ok(Walk(sub.value.found + rest.value.found, rest.value.processed));
            assert ElementItems(items) == ElementItems(items[1..]);
            FoundConcat(s, processed, sub.value.processed, rest.value.processed, sub.value.found, rest.value.found, ElementItems(items));
          }
        }
      } else if items[0].ElementItem? {
        var rest := ParseItems(s, items[1..], processed);
        ParseItemsFound(s, items[1..], processed);
        if rest.Ok? {
          assert r == Ok(Walk([items[0].decl] + rest.value.found, rest.value.processed));
          assert ElementItems(items) == multiset{items[0].decl} + ElementItems(items[1..]);
          assert multiset(r.value.found) == multiset{items[0].decl} + multiset(rest.value.found);
        }
      } else if items[0].AnyItem? {
        ParseItemsFound(s, items[1..], processed);
        assert r == ParseItems(s, items[1..], processed);
        assert ElementItems(items) == ElementItems(items[1..]);
      }
    }
  }

  /**
   * A group already processed yields nothing; otherwise `ParseGroupBaseInternal` finds
   * the element items of every group it newly processes, each group counted once.
   */
  lemma {:induction false} ParseGroupBaseInternalFound(s: SchemaSet, g: GroupId, processed: set<GroupId>)
    requires Compiled(s) && g in s.groups
    ensures g in processed ==> ParseGroupBaseInternal(s, g, processed) == Ok(Walk([], processed))
    ensures var r := ParseGroupBaseInternal(s, g, processed);
            r.Ok? ==> multiset(r.value.found) == GroupSum(s, r.value.processed - processed)
    decreases s.groups.Keys - processed, 0
  {
    if g !in processed {
      var r := ParseGroupBaseInternal(s, g, processed);
      ParseItemsFound(s, s.groups[g], processed + {g});
      if r.Ok? {
        var expanded := r.value.processed - processed;
        assert expanded - {g} == r.value.processed - (processed + {g});
        GroupSumRemove(s, expanded, g);
      }
    }
  }

  /** No item is of a kind the walker refuses. */
  predicate Supported(items: seq<Item>) {
    forall i :: 0 <= i < |items| ==> items[i].SubGroup? || items[i].ElementItem? || items[i].AnyItem?
  }

  /** Every group in `hs` holds only supported items. */
  ghost predicate AllSupported(s: SchemaSet, hs: set<GroupId>) {
    forall h :: h in hs && h in s.groups ==> Supported(s.groups[h])
  }

  /** The groups nested in a group of `hs` are all in `within`. */
  ghost predicate NestedWithin(s: SchemaSet, hs: set<GroupId>, within: set<GroupId>) {
    forall h, i :: h in hs && h in s.groups && 0 <= i < |s.groups[h]| && s.groups[h][i].SubGroup? ==>
      s.groups[h][i].group in within
  }

  /** A chain of groups, each a nested item of the one before it. */
  ghost predicate IsPath(s: SchemaSet, p: seq<GroupId>) {
    && |p| > 0
    && (forall i :: 0 <= i < |p| ==> p[i] in s.groups)
    && (forall i :: 0 <= i < |p| - 1 ==> SubGroup(p[i + 1]) in s.groups[p[i]])
  }

  /** Group `b` is group `a` or nested in it, at any depth. */
  ghost predicate Reaches(s: SchemaSet, a: GroupId, b: GroupId) {
    exists p :: IsPath(s, p) && p[0] == a && p[|p| - 1] == b
  }

  /** Every group in `hs` is reached from a group nested directly among `items`. */
  ghost predicate ReachedFromItems(s: SchemaSet, items: seq<Item>, hs: set<GroupId>) {
    forall h :: h in hs ==> exists i :: 0 <= i < |items| && items[i].SubGroup? && Reaches(s, items[i].group, h)
  }

  lemma {:induction false} ReachesSelf(s: SchemaSet, g: GroupId)
    requires g in s.groups
    ensures Reaches(s, g, g)
  {
    assert IsPath(s, [g]);
  }

  lemma {:induction false} ReachesFromParent(s: SchemaSet, g: GroupId, items: seq<Item>, i: nat, x: GroupId)
    requires g in s.groups && items == s.groups[g]
    requires i < |items| && items[i].SubGroup? && Reaches(s, items[i].group, x)
    ensures Reaches(s, g, x)
  {
    var p :| IsPath(s, p) && p[0] == items[i].group && p[|p| - 1] == x;
    var q := [g] + p;
    assert SubGroup(p[0]) in s.groups[g];
    assert forall k :: 0 < k < |q| ==> q[k] == p[k - 1];
    assert IsPath(s, q);
  }

  /**
   * The groups `ParseItems` newly processes hold only supported items, are reached
   * from the groups nested among `items`, and everything nested in them or among
   * `items` ends up processed.
   */
  lemma {:induction false} ParseItemsShape(s: SchemaSet, items: seq<Item>, processed: set<GroupId>)
    requires Compiled(s) && ItemsResolve(s, items)
    ensures var r := ParseItems(s, items, processed);
            r.Ok? ==>
              var expanded := r.value.processed - processed;
              && Supported(items)
              && AllSupported(s, expanded)
              && (forall i :: 0 <= i < |items| && items[i].SubGroup? ==> items[i].group in r.value.processed)
              && NestedWithin(s, expanded, r.value.processed)
              && ReachedFromItems(s, items, expanded)
    decreases s.groups.Keys - processed, 1, |items|
  {
    if items != [] {
      ItemsTailResolve(s, items);
      var r := ParseItems(s, items, processed);
      assert forall i :: 0 < i < |items| ==> items[i] == items[1..][i - 1];
      if items[0].SubGroup? {
        var h := items[0].group;
        var sub := ParseGroupBaseInternal(s, h, processed);
        ParseGroupBaseInternalShape(s, h, processed);
        if sub.Ok? {
          ParseItemsShape(s, items[1..], sub.value.processed);
          if r.Ok? {
            var e1 := sub.value.processed - processed;
            var e2 := r.value.processed - sub.value.processed;
            assert r.value.processed - processed == e1 + e2;
            forall x | x in e1 + e2
              ensures exists i :: 0 <= i < |items| && items[i].SubGroup? && Reaches(s, items[i].group, x)
            {
              if x in e2 {
                var i :| 0 <= i < |items[1..]| && items[1..][i].SubGroup? && Reaches(s, items[1..][i].group, x);
                assert items[i + 1] == items[1..][i];
              }
            }
          }
        }
      } else if items[0].ElementItem? || items[0].AnyItem? {
        ParseItemsShape(s, items[1..], processed);
      }
    }
  }

  /**
   * The groups `ParseGroupBaseInternal` newly processes hold only supported items, are
   * reached from `g`, and everything nested in them ends up processed.
   */
  lemma {:induction false} ParseGroupBaseInternalShape(s: SchemaSet, g: GroupId, processed: set<GroupId>)
    requires Compiled(s) && g in s.groups
    ensures var r := ParseGroupBaseInternal(s, g, processed);
            r.Ok? ==>
              var expanded := r.value.processed - processed;
              && AllSupported(s, expanded)
              && NestedWithin(s, expanded, r.value.processed)
              && (forall h :: h in expanded ==> Reaches(s, g, h))
    decreases s.groups.Keys - processed, 0
  {
    if g !in processed {
      var items := s.groups[g];
      ParseItemsShape(s, items, processed + {g});
      var r := ParseGroupBaseInternal(s, g, processed);
      if r.Ok? {
        var expanded := r.value.processed - processed;
        var inner := r.value.processed - (processed + {g});
        assert ReachedFromItems(s, items, inner);
        forall x | x in expanded ensures Reaches(s, g, x) {
          if x == g {
            ReachesSelf(s, g);
          } else {
            assert x in inner;
            var i :| 0 <= i < |items| && items[i].SubGroup? && Reaches(s, items[i].group, x);
            ReachesFromParent(s, g, items, i, x);
          }
        }
      }
    }
  }

  /** `ParseItems` succeeds when no group reachable from `items` holds an unsupported item. */
  lemma {:induction false} ParseItemsSucceeds(s: SchemaSet, items: seq<Item>, processed: set<GroupId>)
    requires Compiled(s) && ItemsResolve(s, items)
    requires Supported(items)
    requires forall i, h :: 0 <= i < |items| && items[i].SubGroup? && h in s.groups && Reaches(s, items[i].group, h) ==>
               Supported(s.groups[h])
    ensures ParseItems(s, items, processed).Ok?
    decreases s.groups.Keys - processed, 1, |items|
  {
    if items != [] {
      ItemsTailResolve(s, items);
      assert forall i :: 0 < i < |items| ==> items[i] == items[1..][i - 1];
      if items[0].SubGroup? {
        var h := items[0].group;
        ParseGroupBaseInternalSucceeds(s, h, processed);
        var sub := ParseGroupBaseInternal(s, h, processed);
        ParseItemsSucceeds(s, items[1..], sub.value.processed);
      } else {
        ParseItemsSucceeds(s, items[1..], processed);
      }
    }
  }

  /** `ParseGroupBaseInternal` succeeds when no group reachable from `g` holds an unsupported item. */
  lemma {:induction false} ParseGroupBaseInternalSucceeds(s: SchemaSet, g: GroupId, processed: set<GroupId>)
    requires Compiled(s) && g in s.groups
    requires forall h :: h in s.groups && Reaches(s, g, h) ==> Supported(s.groups[h])
    ensures ParseGroupBaseInternal(s, g, processed).Ok?
    decreases s.groups.Keys - processed, 0
  {
    if g !in processed {
      var items := s.groups[g];
      ReachesSelf(s, g);
      forall i, h | 0 <= i < |items| && items[i].SubGroup? && h in s.groups && Reaches(s, items[i].group, h)
        ensures Supported(s.groups[h])
      {
        ReachesFromParent(s, g, items, i, h);
      }
      ParseItemsSucceeds(s, items, processed + {g});
    }
  }

  /** Every group on a path from a group of a set closed under nesting is in the set. */
  lemma {:induction false} PathStaysInClosedSet(s: SchemaSet, p: seq<GroupId>, closed: set<GroupId>, k: nat)
    requires IsPath(s, p) && p[0] in closed && k < |p|
    requires NestedWithin(s, closed, closed)
    ensures p[k] in closed
  {
    if k > 0 {
      PathStaysInClosedSet(s, p, closed, k - 1);
      var items := s.groups[p[k - 1]];
      var i :| 0 <= i < |items| && items[i] == SubGroup(p[k]);
    }
  }

  /**
   * `ParseGroupBase(group)` expands exactly the groups reachable from `group` through
   * nested groups, and yields the element items of each of them once: a group reached
   * twice, through a cycle or not, contributes only the first time. It fails exactly
   * when one of those groups holds an item of an unsupported kind.
   */
  lemma {:induction false} ParseGroupBaseExpandsReachable(s: SchemaSet, g: GroupId)
    requires Compiled(s) && g in s.groups
    ensures var r := ParseGroupBase(s, g);
            r.Ok? ==>
              && (forall h :: h in r.value.processed <==> Reaches(s, g, h))
              && multiset(r.value.found) == GroupSum(s, r.value.processed)
    ensures (forall h :: h in s.groups && Reaches(s, g, h) ==> Supported(s.groups[h])) <==> ParseGroupBase(s, g).Ok?
  {
    ParseGroupBaseInternalFound(s, g, {});
    ParseGroupBaseInternalShape(s, g, {});
    var r := ParseGroupBase(s, g);
    if r.Ok? {
      var closed := r.value.processed;
      assert closed - {} == closed;
      forall h | Reaches(s, g, h) ensures h in closed {
        var p :| IsPath(s, p) && p[0] == g && p[|p| - 1] == h;
        PathStaysInClosedSet(s, p, closed, |p| - 1);
      }
    }
    if forall h :: h in s.groups && Reaches(s, g, h) ==> Supported(s.groups[h]) {
      ParseGroupBaseInternalSucceeds(s, g, {});
    }
  }
}
