/** The Array.prototype operations the comps pipeline and the route ranker are
    built from: filter, sort with a comparator on a numeric key, slice(0, n). */
module ArrayOps {

  /** Array.prototype.filter: the elements that satisfy p, in their order. */
  function Filter<T(==,!new)>(s: seq<T>, p: T -> bool): (r: seq<T>)
    ensures |r| <= |s|
    ensures forall x :: x in r <==> x in s && p(x)
  {
    if s == [] then [] else (if p(s[0]) then [s[0]] else []) + Filter(s[1..], p)
  }

  /** ord strictly increases along s. */
  ghost predicate IncreasingBy<T>(s: seq<T>, ord: T -> int) {
    forall i, j :: 0 <= i < j < |s| ==> ord(s[i]) < ord(s[j])
  }

  /** Filtering keeps the relative order of what it keeps. */
  lemma {:induction false} FilterKeepsOrder<T(!new)>(s: seq<T>, p: T -> bool, ord: T -> int)
    requires IncreasingBy(s, ord)
    ensures IncreasingBy(Filter(s, p), ord)
  {
    if s != [] {
      FilterKeepsOrder(s[1..], p, ord);
      var rest := Filter(s[1..], p);
      forall y | y in rest ensures ord(s[0]) < ord(y) {
        var j :| 0 <= j < |s[1..]| && s[1..][j] == y;
        assert s[j + 1] == y;
      }
    }
  }

  /** In a sequence that records each element's position as ord, every
      element Filter keeps is still found at its recorded position. */
  lemma FilterOfIndexed<T(!new)>(s: seq<T>, p: T -> bool, ord: T -> int)
    requires forall i :: 0 <= i < |s| ==> ord(s[i]) == i
    ensures IncreasingBy(s, ord)
    ensures forall x :: x in Filter(s, p) ==> 0 <= ord(x) < |s| && s[ord(x)] == x
  {
  }

  /** key does not decrease along s. */
  ghost predicate SortedBy<T>(s: seq<T>, key: T -> real) {
    forall i, j :: 0 <= i < j < |s| ==> key(s[i]) <= key(s[j])
  }

  /** s is ordered by key, and by ord among equal keys. */
  ghost predicate SortedThenBy<T>(s: seq<T>, key: T -> real, ord: T -> int) {
    forall i, j :: 0 <= i < j < |s| ==>
      key(s[i]) < key(s[j]) || (key(s[i]) == key(s[j]) && ord(s[i]) < ord(s[j]))
  }

  /** Puts x in front of the first element whose key is not below x's. */
  function Insert<T(==)>(x: T, s: seq<T>, key: T -> real): (r: seq<T>)
    ensures multiset(r) == multiset(s) + multiset{x} && |r| == |s| + 1
  {
    if s == [] || key(x) <= key(s[0]) then [x] + s
    else
      assert s == [s[0]] + s[1..];
      [s[0]] + Insert(x, s[1..], key)
  }

  /** What Insert returns holds x and the elements of s, nothing else. */
  lemma InsertElements<T>(x: T, s: seq<T>, key: T -> real, y: T)
    requires y in Insert(x, s, key)
    ensures y == x || y in s
  {
    assert y in multiset(Insert(x, s, key));
  }

  lemma SortedCons<T>(a: T, t: seq<T>, key: T -> real)
    requires SortedBy(t, key) && forall y :: y in t ==> key(a) <= key(y)
    ensures SortedBy([a] + t, key)
  {
    var r := [a] + t;
    forall i, j | 0 <= i < j < |r| ensures key(r[i]) <= key(r[j]) {
      assert r[j] == t[j - 1];
      if i > 0 {
        assert r[i] == t[i - 1];
      }
    }
  }

  lemma {:induction false} InsertSorted<T>(x: T, s: seq<T>, key: T -> real)
    requires SortedBy(s, key)
    ensures SortedBy(Insert(x, s, key), key)
  {
    if s == [] || key(x) <= key(s[0]) {
      forall y | y in s ensures key(x) <= key(y) {
        var j :| 0 <= j < |s| && s[j] == y;
        assert key(s[0]) <= key(s[j]) || j == 0;
      }
      SortedCons(x, s, key);
    } else {
      var t := Insert(x, s[1..], key);
      assert SortedBy(s[1..], key);
      InsertSorted(x, s[1..], key);
      forall y | y in t ensures key(s[0]) <= key(y) {
        InsertElements(x, s[1..], key, y);
        if y in s[1..] {
          var j :| 0 <= j < |s[1..]| && s[1..][j] == y;
          assert s[j + 1] == y;
        }
      }
      SortedCons(s[0], t, key);
    }
  }

  /** Array.prototype.sort with the comparator (a, b) => key(a) - key(b). The
      sort is stable (ECMA-262 requires it since the 2019 edition), so the
      result is unique: a stable insertion sort computes it. */
  function SortBy<T(==)>(s: seq<T>, key: T -> real): (r: seq<T>)
    ensures multiset(r) == multiset(s) && |r| == |s|
    ensures SortedBy(r, key)
  {
    if s == [] then []
    else
      var t := SortBy(s[1..], key);
      InsertSorted(s[0], t, key);
      assert multiset(s) == multiset{s[0]} + multiset(s[1..]) by {
        assert s == [s[0]] + s[1..];
      }
      Insert(s[0], t, key)
  }

  /** The elements of s whose key is k, in order. */
  function WithKey<T>(s: seq<T>, key: T -> real, k: real): seq<T> {
    if s == [] then [] else (if key(s[0]) == k then [s[0]] else []) + WithKey(s[1..], key, k)
  }

  lemma {:induction false} InsertWithKey<T>(x: T, s: seq<T>, key: T -> real, k: real)
    ensures WithKey(Insert(x, s, key), key, k) == (if key(x) == k then [x] else []) + WithKey(s, key, k)
  {
    if s == [] || key(x) <= key(s[0]) {
      assert ([x] + s)[1..] == s;
    } else {
      var t := Insert(x, s[1..], key);
      var r := [s[0]] + t;
      assert r[0] == s[0] && r[1..] == t;
      InsertWithKey(x, s[1..], key, k);
      var xs := if key(x) == k then [x] else [];
      var s0 := if key(s[0]) == k then [s[0]] else [];
      assert WithKey(r, key, k) == s0 + WithKey(t, key, k);
      assert WithKey(s, key, k) == s0 + WithKey(s[1..], key, k);
      if key(x) == k {
        assert s0 == [];
      } else {
        assert xs == [];
      }
    }
  }

  /** Stability: among the elements with one key, the sort keeps the order of
      the input. */
  lemma {:induction false} SortByStable<T>(s: seq<T>, key: T -> real, k: real)
    ensures WithKey(SortBy(s, key), key, k) == WithKey(s, key, k)
  {
    if s != [] {
      SortByStable(s[1..], key, k);
      InsertWithKey(s[0], SortBy(s[1..], key), key, k);
    }
  }

  lemma ThenByCons<T>(a: T, t: seq<T>, key: T -> real, ord: T -> int)
    requires SortedThenBy(t, key, ord)
    requires forall y :: y in t ==> key(a) < key(y) || (key(a) == key(y) && ord(a) < ord(y))
    ensures SortedThenBy([a] + t, key, ord)
  {
    var r := [a] + t;
    forall i, j | 0 <= i < j < |r|
      ensures key(r[i]) < key(r[j]) || (key(r[i]) == key(r[j]) && ord(r[i]) < ord(r[j]))
    {
      assert r[j] == t[j - 1];
      if i > 0 {
        assert r[i] == t[i - 1];
      }
    }
  }

  lemma {:induction false} InsertThenBy<T>(x: T, s: seq<T>, key: T -> real, ord: T -> int)
    requires SortedThenBy(s, key, ord)
    requires forall y :: y in s ==> ord(x) < ord(y)
    ensures SortedThenBy(Insert(x, s, key), key, ord)
  {
    if s == [] || key(x) <= key(s[0]) {
      forall y | y in s ensures key(x) < key(y) || (key(x) == key(y) && ord(x) < ord(y)) {
        var j :| 0 <= j < |s| && s[j] == y;
        if j > 0 {
          assert key(s[0]) <= key(s[j]);
        }
      }
      ThenByCons(x, s, key, ord);
    } else {
      var t := Insert(x, s[1..], key);
      assert SortedThenBy(s[1..], key, ord);
      InsertThenBy(x, s[1..], key, ord);
      forall y | y in t ensures key(s[0]) < key(y) || (key(s[0]) == key(y) && ord(s[0]) < ord(y)) {
        InsertElements(x, s[1..], key, y);
        if y in s[1..] {
          var j :| 0 <= j < |s[1..]| && s[1..][j] == y;
          assert s[j + 1] == y;
        }
      }
      ThenByCons(s[0], t, key, ord);
    }
  }

  /** When the input is in strictly increasing ord (the original positions,
      say), the stable sort orders equal keys by ord. */
  lemma {:induction false} SortByThenBy<T>(s: seq<T>, key: T -> real, ord: T -> int)
    requires IncreasingBy(s, ord)
    ensures SortedThenBy(SortBy(s, key), key, ord)
  {
    if s != [] {
      assert IncreasingBy(s[1..], ord);
      SortByThenBy(s[1..], key, ord);
      forall y | y in SortBy(s[1..], key) ensures ord(s[0]) < ord(y) {
        assert y in multiset(SortBy(s[1..], key));
        var j :| 0 <= j < |s[1..]| && s[1..][j] == y;
        assert s[j + 1] == y;
      }
      InsertThenBy(s[0], SortBy(s[1..], key), key, ord);
    }
  }

  /** Array.prototype.slice(0, n): the first min(n, |s|) elements. */
  function Take<T>(s: seq<T>, n: nat): (r: seq<T>)
    ensures |r| == (if |s| < n then |s| else n)
    ensures r == s[..|r|]
  {
    if |s| < n then s else s[..n]
  }

  /** What the slice leaves out of a sorted sequence comes after all it keeps. */
  lemma TakeOfSortedOmits<T>(s: seq<T>, key: T -> real, n: nat, x: T)
    requires SortedBy(s, key) && x in s && x !in Take(s, n)
    ensures |Take(s, n)| == n
    ensures forall y :: y in Take(s, n) ==> key(y) <= key(x)
  {
    var j :| 0 <= j < |s| && s[j] == x;
    assert j >= n;
    forall y | y in Take(s, n) ensures key(y) <= key(x) {
      var i :| 0 <= i < n && s[i] == y;
    }
  }

  lemma TakeOfSortedThenByOmits<T>(s: seq<T>, key: T -> real, ord: T -> int, n: nat, x: T)
    requires SortedThenBy(s, key, ord) && x in s && x !in Take(s, n)
    ensures |Take(s, n)| == n
    ensures forall y :: y in Take(s, n) ==>
      key(y) < key(x) || (key(y) == key(x) && ord(y) < ord(x))
  {
    var j :| 0 <= j < |s| && s[j] == x;
    assert j >= n;
    forall y | y in Take(s, n) ensures key(y) < key(x) || (key(y) == key(x) && ord(y) < ord(x)) {
      var i :| 0 <= i < n && s[i] == y;
    }
  }

  /** f tells the elements of s apart. */
  ghost predicate DistinctBy<T, U>(s: seq<T>, f: T -> U) {
    forall i, j :: 0 <= i < j < |s| ==> f(s[i]) != f(s[j])
  }

  lemma {:induction false} DistinctOnce<T, U>(s: seq<T>, f: T -> U, x: T)
    requires DistinctBy(s, f)
    ensures multiset(s)[x] <= 1
  {
    if s != [] {
      assert s == [s[0]] + s[1..];
      assert DistinctBy(s[1..], f);
      DistinctOnce(s[1..], f, x);
      if x == s[0] {
        assert x !in s[1..] by {
          forall y | y in s[1..] ensures f(y) != f(s[0]) {
            var j :| 0 <= j < |s[1..]| && s[1..][j] == y;
            assert s[j + 1] == y;
          }
        }
      }
    }
  }

  lemma Twice<T>(t: seq<T>, i: nat, j: nat)
    requires i < j < |t| && t[i] == t[j]
    ensures multiset(t)[t[i]] >= 2
  {
    assert t == t[..j] + t[j..];
    assert t[i] in t[..j] && t[j] in t[j..];
  }

  /** Reordering keeps elements apart: a permutation of a sequence that f
      tells apart is told apart by f too. */
  lemma DistinctByPermutation<T, U>(s: seq<T>, t: seq<T>, f: T -> U)
    requires multiset(s) == multiset(t) && DistinctBy(s, f)
    ensures DistinctBy(t, f)
  {
    forall i, j | 0 <= i < j < |t| ensures f(t[i]) != f(t[j]) {
      if f(t[i]) == f(t[j]) {
        assert t[i] in multiset(s) && t[j] in multiset(s);
        var a :| 0 <= a < |s| && s[a] == t[i];
        var b :| 0 <= b < |s| && s[b] == t[j];
        assert a == b;
        Twice(t, i, j);
        DistinctOnce(s, f, t[i]);
        assert false;
      }
    }
  }
}
