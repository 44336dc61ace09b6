/**
 * Sorting as LINQ's `OrderBy(keySelector, comparer)` performs it: a stable sort of a
 * sequence by a string key under a comparer. Culture-dependent comparers are not
 * modelled concretely; they are comparison relations `le` that are total preorders.
 * The ordinal comparer is concrete: it compares strings by UTF-16 code units.
 */
module Ordering {

  /** `le(a, b)` holds when `a` sorts no later than `b`. */
  type Comparer = (string, string) -> bool

  /** What `OrderBy` needs of a comparer: any two keys compare, and consistently. */
  ghost predicate TotalPreorder(le: Comparer) {
    && (forall a, b :: le(a, b) || le(b, a))
    && (forall a, b, c :: le(a, b) && le(b, c) ==> le(a, c))
  }

  /** A comparer that never calls two different strings equal. */
  ghost predicate Antisymmetric(le: Comparer) {
    forall a, b :: le(a, b) && le(b, a) ==> a == b
  }

  /** The comparer ranks `a` and `b` the same. */
  predicate Equivalent(le: Comparer, a: string, b: string) {
    le(a, b) && le(b, a)
  }

  ghost predicate SortedBy<T>(xs: seq<T>, key: T -> string, le: Comparer) {
    forall i, j :: 0 <= i < j < |xs| ==> le(key(xs[i]), key(xs[j]))
  }

  /** The items of `xs` whose key ranks the same as `k`, in their order in `xs`. */
  function KeyClass<T>(xs: seq<T>, key: T -> string, le: Comparer, k: string): seq<T>
  {
    if xs == [] then []
    else (if Equivalent(le, key(xs[0]), k) then [xs[0]] else []) + KeyClass(xs[1..], key, le, k)
  }

  /** Puts `x` in front of the first item it does not sort after. */
  function Insert<T>(x: T, xs: seq<T>, key: T -> string, le: Comparer): (r: seq<T>)
    ensures multiset(r) == multiset(xs) + multiset{x}
  {
    if xs == [] then [x]
    else if le(key(x), key(xs[0])) then [x] + xs
    else
      assert xs == [xs[0]] + xs[1..];
      [xs[0]] + Insert(x, xs[1..], key, le)
  }

  /** `xs.OrderBy(key, le)`: insertion sort, taking the items from the back. */
  function SortBy<T>(xs: seq<T>, key: T -> string, le: Comparer): (r: seq<T>)
    ensures multiset(r) == multiset(xs)
    ensures |r| == |xs|
  {
    if xs == [] then []
    else
      assert xs == [xs[0]] + xs[1..];
      Insert(xs[0], SortBy(xs[1..], key, le), key, le)
  }

  lemma {:induction false} InsertSorted<T>(x: T, xs: seq<T>, key: T -> string, le: Comparer)
    requires TotalPreorder(le)
    requires SortedBy(xs, key, le)
    ensures SortedBy(Insert(x, xs, key, le), key, le)
  {
    if xs == [] {
    } else if le(key(x), key(xs[0])) {
      var r := [x] + xs;
      forall i, j | 0 <= i < j < |r| ensures le(key(r[i]), key(r[j])) {
        if i == 0 && j > 1 {
          assert le(key(xs[0]), key(xs[j - 1]));
        }
      }
    } else {
      assert SortedBy(xs[1..], key, le) by {
        forall i, j | 0 <= i < j < |xs[1..]| ensures le(key(xs[1..][i]), key(xs[1..][j])) {
          assert xs[1..][i] == xs[i + 1] && xs[1..][j] == xs[j + 1];
        }
      }
      InsertSorted(x, xs[1..], key, le);
      var tail := Insert(x, xs[1..], key, le);
      var r := [xs[0]] + tail;
      forall i, j | 0 <= i < j < |r| ensures le(key(r[i]), key(r[j])) {
        if i == 0 {
          var y := tail[j - 1];
          assert y in multiset(tail);
          if y == x {
            assert le(key(xs[0]), key(x));
          } else {
            assert y in multiset(xs[1..]);
            var k :| 0 <= k < |xs[1..]| && xs[1..][k] == y;
            assert xs[k + 1] == y;
          }
        }
      }
    }
  }

  /** `SortBy` returns its input ordered by the comparer. */
  lemma {:induction false} SortBySorted<T>(xs: seq<T>, key: T -> string, le: Comparer)
    requires TotalPreorder(le)
    ensures SortedBy(SortBy(xs, key, le), key, le)
  {
    if xs != [] {
      SortBySorted(xs[1..], key, le);
      InsertSorted(xs[0], SortBy(xs[1..], key, le), key, le);
    }
  }

  lemma {:induction false} InsertKeyClass<T>(x: T, xs: seq<T>, key: T -> string, le: Comparer, k: string)
    requires TotalPreorder(le)
    ensures KeyClass(Insert(x, xs, key, le), key, le, k)
         == (if Equivalent(le, key(x), k) then [x] else []) + KeyClass(xs, key, le, k)
  {
    if xs == [] {
    } else if le(key(x), key(xs[0])) {
      assert ([x] + xs)[1..] == xs;
    } else {
      var tail := Insert(x, xs[1..], key, le);
      assert ([xs[0]] + tail)[1..] == tail;
      InsertKeyClass(x, xs[1..], key, le, k);
      var hx := if Equivalent(le, key(x), k) then [x] else [];
      var h0 := if Equivalent(le, key(xs[0]), k) then [xs[0]] else [];
      if Equivalent(le, key(x), k) {
        assert !le(k, key(xs[0]));
      }
      assert h0 + hx == hx + h0;
      calc {
        KeyClass(Insert(x, xs, key, le), key, le, k);
        h0 + KeyClass(tail, key, le, k);
        h0 + (hx + KeyClass(xs[1..], key, le, k));
        hx + (h0 + KeyClass(xs[1..], key, le, k));
        hx + KeyClass(xs, key, le, k);
      }
    }
  }

  /** `SortBy` is stable: items the comparer ranks the same keep their input order. */
  lemma {:induction false} SortByStable<T>(xs: seq<T>, key: T -> string, le: Comparer, k: string)
    requires TotalPreorder(le)
    ensures KeyClass(SortBy(xs, key, le), key, le, k) == KeyClass(xs, key, le, k)
  {
    if xs != [] {
      SortByStable(xs[1..], key, le, k);
      InsertKeyClass(xs[0], SortBy(xs[1..], key, le), key, le, k);
    }
  }

  /** The tail of a sorted sequence is sorted. */
  lemma {:induction false} SortedTail<T>(xs: seq<T>, key: T -> string, le: Comparer)
    requires xs != [] && SortedBy(xs, key, le)
    ensures SortedBy(xs[1..], key, le)
  {
    forall p, q | 0 <= p < q < |xs[1..]| ensures le(key(xs[1..][p]), key(xs[1..][q])) {
      assert xs[1..][p] == xs[p + 1] && xs[1..][q] == xs[q + 1];
    }
  }

  /** A sorted sequence starts with an item whose key is no greater than any other. */
  lemma {:induction false} SortedHeadLeast<T>(xs: seq<T>, key: T -> string, le: Comparer, y: T)
    requires xs != [] && SortedBy(xs, key, le) && y in xs && y != xs[0]
    ensures le(key(xs[0]), key(y))
  {
    var i :| 0 <= i < |xs| && xs[i] == y;
  }

  /**
   * Two sorted sequences with the same items are equal when the comparer separates
   * every two different keys and the key separates every two different items.
   */
  lemma {:induction false} SortedPermutationsEqual<T>(xs: seq<T>, ys: seq<T>, key: T -> string, le: Comparer)
    requires Antisymmetric(le)
    requires forall a, b :: a in xs && b in xs && key(a) == key(b) ==> a == b
    requires SortedBy(xs, key, le) && SortedBy(ys, key, le)
    requires multiset(xs) == multiset(ys)
    ensures xs == ys
    decreases |xs|
  {
    assert |xs| == |multiset(xs)| == |multiset(ys)| == |ys|;
    if xs != [] {
      var a, b := xs[0], ys[0];
      assert a in multiset(ys) && b in multiset(xs);
      if a != b {
        SortedHeadLeast(ys, key, le, a);
        SortedHeadLeast(xs, key, le, b);
      }
      assert a == b;
      assert xs == [a] + xs[1..] && ys == [a] + ys[1..];
      assert multiset(xs[1..]) == multiset(xs) - multiset{a};
      assert multiset(ys[1..]) == multiset(ys) - multiset{a};
      SortedTail(xs, key, le);
      SortedTail(ys, key, le);
      SortedPermutationsEqual(xs[1..], ys[1..], key, le);
    }
  }

  /**
   * The result of `SortBy` under a comparer that separates different keys does not
   * depend on the order of its input.
   */
  lemma {:induction false} SortByOrderIrrelevant<T>(xs: seq<T>, ys: seq<T>, key: T -> string, le: Comparer)
    requires TotalPreorder(le) && Antisymmetric(le)
    requires forall a, b :: a in xs && b in xs && key(a) == key(b) ==> a == b
    requires multiset(xs) == multiset(ys)
    ensures SortBy(xs, key, le) == SortBy(ys, key, le)
  {
    SortBySorted(xs, key, le);
    SortBySorted(ys, key, le);
    var sx := SortBy(xs, key, le);
    forall a, b | a in sx && b in sx && key(a) == key(b) ensures a == b {
      assert a in multiset(sx) && b in multiset(sx);
      assert a in multiset(xs) && b in multiset(xs);
    }
    SortedPermutationsEqual(sx, SortBy(ys, key, le), key, le);
  }

  // ----- The ordinal comparer -----

  /**
   * The position of a character in UTF-16 code-unit order. Characters below U+D800
   * are one code unit; supplementary characters start with a high surrogate
   * (U+D800..U+DBFF) and therefore come next; U+E000..U+FFFF come last.
   */
  function OrdinalRank(c: char): int {
    var n := c as int;
    if n < 0xD800 then n
    else if n < 0x10000 then n + 0x10_0000
    else n - 0x10000 + 0xD800
  }

  /** The UTF-16 encoding of one character. */
  function Utf16(c: char): seq<int> {
    var n := c as int;
    if n < 0x10000 then [n]
    else [0xD800 + (n - 0x10000) / 0x400, 0xDC00 + (n - 0x10000) % 0x400]
  }

  /** Lexicographic order of code-unit sequences, a proper prefix first. */
  predicate CodeUnitsLess(u: seq<int>, v: seq<int>) {
    if v == [] then false
    else if u == [] then true
    else if u[0] != v[0] then u[0] < v[0]
    else CodeUnitsLess(u[1..], v[1..])
  }

  lemma {:induction false} QuotientOrder(m: int, n: int)
    requires 0 <= m && 0 <= n
    ensures m < n <==> (m / 0x400 < n / 0x400 || (m / 0x400 == n / 0x400 && m % 0x400 < n % 0x400))
  {
    assert m == (m / 0x400) * 0x400 + m % 0x400;
    assert n == (n / 0x400) * 0x400 + n % 0x400;
  }

  /** Comparing characters by `OrdinalRank` is comparing their UTF-16 encodings. */
  lemma {:induction false} OrdinalRankIsUtf16Order(c: char, d: char)
    ensures OrdinalRank(c) < OrdinalRank(d) <==> CodeUnitsLess(Utf16(c), Utf16(d))
  {
    var m, n := c as int, d as int;
    if m >= 0x10000 && n >= 0x10000 {
      QuotientOrder(m - 0x10000, n - 0x10000);
      var u, v := Utf16(c), Utf16(d);
      if u[0] == v[0] {
        assert u[1..] == [u[1]] && v[1..] == [v[1]];
        assert CodeUnitsLess(u, v) == CodeUnitsLess([u[1]], [v[1]]);
        assert [u[1]][1..] == [] && [v[1]][1..] == [];
        assert CodeUnitsLess([u[1]], [v[1]]) <==> u[1] < v[1];
      }
    } else if m >= 0x10000 {
      assert Utf16(c)[0] <= 0xDBFF by {
        assert (m - 0x10000) / 0x400 <= 0x3FF;
      }
    } else if n >= 0x10000 {
      assert Utf16(d)[0] <= 0xDBFF by {
        assert (n - 0x10000) / 0x400 <= 0x3FF;
      }
    }
  }

  /** The UTF-16 encoding of a string: its characters' encodings, concatenated. */
  function Utf16String(s: string): seq<int> {
    if s == [] then [] else Utf16(s[0]) + Utf16String(s[1..])
  }

  /** A common prefix does not change the order of code-unit sequences. */
  lemma {:induction false} CodeUnitsLessCommonPrefix(u: seq<int>, x: seq<int>, y: seq<int>)
    ensures CodeUnitsLess(u + x, u + y) == CodeUnitsLess(x, y)
    decreases |u|
  {
    if u == [] {
      assert u + x == x && u + y == y;
    } else {
      CodeUnitsLessCommonPrefix(u[1..], x, y);
      assert (u + x)[1..] == u[1..] + x && (u + y)[1..] == u[1..] + y;
    }
  }

  /** Once `u` and `v` differ inside both, what follows them does not change their order. */
  lemma {:induction false} CodeUnitsLessDiffer(u: seq<int>, v: seq<int>, x: seq<int>, y: seq<int>, k: nat)
    requires k < |u| && k < |v| && u[..k] == v[..k] && u[k] != v[k]
    ensures CodeUnitsLess(u + x, v + y) == CodeUnitsLess(u, v)
    decreases k
  {
    if k > 0 {
      assert u[0] == u[..k][0] == v[..k][0] == v[0];
      assert u[1..][..k - 1] == u[..k][1..] && v[1..][..k - 1] == v[..k][1..];
      CodeUnitsLessDiffer(u[1..], v[1..], x, y, k - 1);
      assert (u + x)[1..] == u[1..] + x && (v + y)[1..] == v[1..] + y;
    }
  }

  /** The UTF-16 encodings of two different characters differ before either ends: UTF-16 is prefix-free. */
  lemma {:induction false} Utf16PrefixFree(c: char, d: char) returns (k: nat)
    requires c != d
    ensures k < |Utf16(c)| && k < |Utf16(d)| && Utf16(c)[..k] == Utf16(d)[..k] && Utf16(c)[k] != Utf16(d)[k]
  {
    var m, n := c as int, d as int;
    if m >= 0x10000 && n >= 0x10000 && Utf16(c)[0] == Utf16(d)[0] {
      assert m - 0x10000 == ((m - 0x10000) / 0x400) * 0x400 + (m - 0x10000) % 0x400;
      assert n - 0x10000 == ((n - 0x10000) / 0x400) * 0x400 + (n - 0x10000) % 0x400;
      k := 1;
    } else {
      if m >= 0x10000 && n < 0x10000 {
        assert Utf16(c)[0] <= 0xDBFF by {
          assert (m - 0x10000) / 0x400 <= 0x3FF;
        }
      } else if n >= 0x10000 && m < 0x10000 {
        assert Utf16(d)[0] <= 0xDBFF by {
          assert (n - 0x10000) / 0x400 <= 0x3FF;
        }
      }
      k := 0;
    }
  }

  /**
   * `StringComparer.Ordinal` on whole strings: `a` comes no later than `b` exactly when
   * the strings are equal or `a`'s UTF-16 code units come before `b`'s.
   */
  lemma {:induction false} OrdinalLeIsUtf16Order(a: string, b: string)
    ensures OrdinalLe(a, b) <==> a == b || CodeUnitsLess(Utf16String(a), Utf16String(b))
  {
    if a == [] {
      if b != [] {
        assert Utf16String(b) != [] by { assert |Utf16(b[0])| > 0; }
      }
    } else if b == [] {
      assert Utf16String(b) == [];
    } else if a[0] != b[0] {
      var k := Utf16PrefixFree(a[0], b[0]);
      CodeUnitsLessDiffer(Utf16(a[0]), Utf16(b[0]), Utf16String(a[1..]), Utf16String(b[1..]), k);
      OrdinalRankIsUtf16Order(a[0], b[0]);
    } else {
      OrdinalLeIsUtf16Order(a[1..], b[1..]);
      CodeUnitsLessCommonPrefix(Utf16(a[0]), Utf16String(a[1..]), Utf16String(b[1..]));
      assert a == [a[0]] + a[1..] && b == [b[0]] + b[1..];
      assert a[1..] == b[1..] <==> a == b;
    }
  }

  lemma {:induction false} OrdinalRankInjective(c: char, d: char)
    ensures OrdinalRank(c) == OrdinalRank(d) ==> c == d
  {
  }

  /** `StringComparer.Ordinal`: lexicographic by code units, a proper prefix first. */
  predicate OrdinalLe(a: string, b: string) {
    if a == [] then true
    else if b == [] then false
    else if a[0] != b[0] then OrdinalRank(a[0]) < OrdinalRank(b[0])
    else OrdinalLe(a[1..], b[1..])
  }

  lemma {:induction false} OrdinalTotal(a: string, b: string)
    ensures OrdinalLe(a, b) || OrdinalLe(b, a)
  {
    if a != [] && b != [] {
      if a[0] == b[0] {
        OrdinalTotal(a[1..], b[1..]);
      } else {
        OrdinalRankInjective(a[0], b[0]);
      }
    }
  }

  lemma {:induction false} OrdinalTransitive(a: string, b: string, c: string)
    requires OrdinalLe(a, b) && OrdinalLe(b, c)
    ensures OrdinalLe(a, c)
  {
    if a != [] && b != [] && c != [] {
      if a[0] == b[0] && b[0] == c[0] {
        OrdinalTransitive(a[1..], b[1..], c[1..]);
      }
    }
  }

  lemma {:induction false} OrdinalAntisymmetric(a: string, b: string)
    requires OrdinalLe(a, b) && OrdinalLe(b, a)
    ensures a == b
  {
    if a != [] && b != [] {
      if a[0] == b[0] {
        OrdinalAntisymmetric(a[1..], b[1..]);
        assert a == [a[0]] + a[1..] && b == [b[0]] + b[1..];
      }
    }
  }

  /** The ordinal comparer is a total order on strings. */
  lemma {:induction false} OrdinalIsTotalOrder()
    ensures TotalPreorder(OrdinalLe) && Antisymmetric(OrdinalLe)
  {
    forall a, b ensures OrdinalLe(a, b) || OrdinalLe(b, a) {
      OrdinalTotal(a, b);
    }
    forall a, b, c | OrdinalLe(a, b) && OrdinalLe(b, c) ensures OrdinalLe(a, c) {
      OrdinalTransitive(a, b, c);
    }
    forall a, b | OrdinalLe(a, b) && OrdinalLe(b, a) ensures a == b {
      OrdinalAntisymmetric(a, b);
    }
  }
}
