/** Small facts about sequences used as insertion-ordered sets. */
module Collections {

  /** No value occurs twice in `s`. */
  predicate NoDuplicates<T(==)>(s: seq<T>) {
    forall i, j :: 0 <= i < j < |s| ==> s[i] != s[j]
  }

  /** `s` is strictly increasing. */
  predicate Increasing(s: seq<int>) {
    forall i, j :: 0 <= i < j < |s| ==> s[i] < s[j]
  }

  /** Appending a value above every member keeps a sequence strictly increasing. */
  lemma {:induction false} IncreasingAppend(s: seq<int>, n: int)
    requires Increasing(s) && forall i :: 0 <= i < |s| ==> s[i] < n
    ensures Increasing(s + [n])
  {
    var s' := s + [n];
    forall i, j | 0 <= i < j < |s'| ensures s'[i] < s'[j] {
      assert s'[i] == s[i];
    }
  }

  /** In a strictly increasing sequence of naturals, each member is at least its index. */
  lemma {:induction false} IncreasingAtLeastIndex(s: seq<int>)
    requires Increasing(s) && forall i :: 0 <= i < |s| ==> 0 <= s[i]
    ensures forall j :: 0 <= j < |s| ==> j <= s[j]
  {
    if |s| > 0 {
      var init := s[..|s| - 1];
      assert forall i :: 0 <= i < |init| ==> init[i] == s[i];
      IncreasingAtLeastIndex(init);
      if |s| > 1 {
        assert s[|s| - 2] < s[|s| - 1];
      }
    }
  }

  /** The values of `s`, forgetting order and multiplicity. */
  function ToSet<T>(s: seq<T>): set<T> {
    set x | x in s
  }

  /** In a sequence without duplicates every member occurs exactly once. */
  lemma {:induction false} NoDuplicatesMultiplicity<T>(s: seq<T>, x: T)
    requires NoDuplicates(s)
    ensures multiset(s)[x] == if x in s then 1 else 0
  {
    if s != [] {
      assert s == [s[0]] + s[1..];
      assert NoDuplicates(s[1..]) by {
        forall i, j | 0 <= i < j < |s[1..]| ensures s[1..][i] != s[1..][j] {
          assert s[1..][i] == s[i + 1] && s[1..][j] == s[j + 1];
        }
      }
      NoDuplicatesMultiplicity(s[1..], x);
      assert s[0] !in s[1..] by {
        forall k | 0 <= k < |s[1..]| ensures s[1..][k] != s[0] {
          assert s[1..][k] == s[k + 1];
        }
      }
      assert multiset(s) == multiset{s[0]} + multiset(s[1..]);
    }
  }

  /** Two duplicate-free sequences with the same members are permutations of each other. */
  lemma {:induction false} SameMembersSameMultiset<T>(xs: seq<T>, ys: seq<T>)
    requires NoDuplicates(xs) && NoDuplicates(ys)
    requires ToSet(xs) == ToSet(ys)
    ensures multiset(xs) == multiset(ys)
  {
    forall x ensures multiset(xs)[x] == multiset(ys)[x] {
      NoDuplicatesMultiplicity(xs, x);
      NoDuplicatesMultiplicity(ys, x);
      assert x in xs <==> x in ToSet(xs);
      assert x in ys <==> x in ToSet(ys);
    }
  }

  /** Putting a new value in front of a duplicate-free sequence keeps it duplicate-free. */
  lemma {:induction false} NoDuplicatesCons<T>(x: T, s: seq<T>)
    requires NoDuplicates(s) && x !in s
    ensures NoDuplicates([x] + s)
  {
    var xs := [x] + s;
    forall i, j | 0 <= i < j < |xs| ensures xs[i] != xs[j] {
      assert xs[j] == s[j - 1];
      if i > 0 {
        assert xs[i] == s[i - 1];
      }
    }
  }

  /** Each item of a sequence has a position in any permutation of it. */
  lemma {:induction false} PermutationIndex<T>(xs: seq<T>, ys: seq<T>, i: nat) returns (j: nat)
    requires multiset(xs) == multiset(ys) && i < |xs|
    ensures j < |ys| && ys[j] == xs[i]
  {
    assert xs[i] in multiset(ys);
    j :| 0 <= j < |ys| && ys[j] == xs[i];
  }

  /** A permutation of a duplicate-free sequence is duplicate-free. */
  lemma {:induction false} PermutationNoDuplicates<T>(xs: seq<T>, ys: seq<T>)
    requires NoDuplicates(xs) && multiset(xs) == multiset(ys)
    ensures NoDuplicates(ys)
  {
    forall i, j | 0 <= i < j < |ys| ensures ys[i] != ys[j] {
      if ys[i] == ys[j] {
        var y := ys[i];
        assert ys == ys[..j] + ys[j..];
        assert y in ys[..j] && y == ys[j..][0];
        assert multiset(ys)[y] == multiset(ys[..j])[y] + multiset(ys[j..])[y];
        NoDuplicatesMultiplicity(xs, y);
        assert false;
      }
    }
  }

  /** The items of a suffix `ms[off..]`, by their positions in `ms`. */
  lemma {:induction false} SuffixIndex<T>(ms: seq<T>, off: nat, suffix: seq<T>)
    requires off <= |ms| && ms[off..] == suffix
    ensures forall i :: off <= i < |ms| ==> ms[i] == suffix[i - off]
  {
    forall i | off <= i < |ms| ensures ms[i] == suffix[i - off] {
      assert ms[off..][i - off] == ms[i];
    }
  }

  /**
   * The images of a permutation, placed from `off` on, hold the same items as the
   * images `mx` of the original: each image of an item of `xs` occurs there, and
   * nothing else does.
   */
  lemma {:induction false} MapPermutation<T, U>(xs: seq<T>, ys: seq<T>, f: T -> U, mx: seq<U>, ms: seq<U>, off: nat)
    requires multiset(xs) == multiset(ys)
    requires |mx| == |xs| && forall j :: 0 <= j < |xs| ==> mx[j] == f(xs[j])
    requires |ms| == off + |ys| && forall i :: off <= i < |ms| ==> ms[i] == f(ys[i - off])
    ensures forall j :: 0 <= j < |mx| ==> mx[j] in ms[off..]
    ensures forall i :: off <= i < |ms| ==> ms[i] in mx
  {
    forall j | 0 <= j < |mx| ensures mx[j] in ms[off..] {
      var i := PermutationIndex(xs, ys, j);
      assert ms[off..][i] == ms[off + i];
    }
    forall i | off <= i < |ms| ensures ms[i] in mx {
      var j := PermutationIndex(ys, xs, i - off);
      assert mx[j] == ms[i];
    }
  }

  /**
   * When `f` maps the items of `xs` to distinct values, the images of any permutation
   * of `xs`, placed from `off` on, are distinct too.
   */
  lemma {:induction false} DistinctImagesPermuted<T, U>(xs: seq<T>, ys: seq<T>, f: T -> U, ms: seq<U>, off: nat)
    requires multiset(xs) == multiset(ys)
    requires forall a, b :: 0 <= a < b < |xs| ==> f(xs[a]) != f(xs[b])
    requires |ms| == off + |ys| && forall i :: off <= i < |ms| ==> ms[i] == f(ys[i - off])
    ensures forall i, k :: off <= i < k < |ms| ==> ms[i] != ms[k]
  {
    assert NoDuplicates(xs) by {
      forall a, b | 0 <= a < b < |xs| ensures xs[a] != xs[b] {
        assert f(xs[a]) != f(xs[b]);
      }
    }
    PermutationNoDuplicates(xs, ys);
    forall i, k | off <= i < k < |ms| ensures ms[i] != ms[k] {
      var a := PermutationIndex(ys, xs, i - off);
      var b := PermutationIndex(ys, xs, k - off);
      assert ys[i - off] != ys[k - off];
      if a < b {
        assert f(xs[a]) != f(xs[b]);
      } else {
        assert f(xs[b]) != f(xs[a]);
      }
    }
  }

  /**
   * One step of a first-in first-out queue: if what was taken followed by what waits is
   * `start + added`, taking the head and appending `more` keeps that shape.
   */
  lemma {:induction false} QueueStep<T>(taken: seq<T>, waiting: seq<T>, start: seq<T>, added: seq<T>, more: seq<T>)
    requires waiting != [] && taken + waiting == start + added
    ensures (taken + [waiting[0]]) + (waiting[1..] + more) == start + (added + more)
  {
    assert [waiting[0]] + waiting[1..] == waiting;
    calc {
      (taken + [waiting[0]]) + (waiting[1..] + more);
      (taken + ([waiting[0]] + waiting[1..])) + more;
      (start + added) + more;
    }
  }
}
