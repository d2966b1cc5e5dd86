/**
 * The source sorts arrays in place with the built-in `Array.prototype.sort`
 * and a comparator of the form `key(a) - key(b)`; only the sign of the
 * difference matters, and the built-in sort is stable. This module gives that
 * behaviour one definition, `SortBy` (ascending by an integer key, ties kept in
 * input order), proves that it is sorted, a permutation and stable, proves that
 * these three facts determine it uniquely (so any stable sort agrees with it),
 * and proves an in-place array sort equal to it.
 */
module StableSort {

  /** Non-decreasing by key. */
  predicate SortedBy<T>(s: seq<T>, key: T -> int) {
    forall i, j :: 0 <= i < j < |s| ==> key(s[i]) <= key(s[j])
  }

  /** The elements of `s` whose key is `k`, in their order in `s`. */
  function WithKey<T>(s: seq<T>, key: T -> int, k: int): (r: seq<T>)
    ensures |r| <= |s|
    ensures forall i :: 0 <= i < |r| ==> key(r[i]) == k
  {
    if s == [] then []
    else WithKey(s[..|s| - 1], key, k) + (if key(s[|s| - 1]) == k then [s[|s| - 1]] else [])
  }

  /** Inserts `x` after the last element whose key is at most `key(x)`. */
  function Insert<T>(s: seq<T>, x: T, key: T -> int): (r: seq<T>)
    ensures |r| == |s| + 1
  {
    if s == [] || key(s[|s| - 1]) <= key(x) then s + [x]
    else Insert(s[..|s| - 1], x, key) + [s[|s| - 1]]
  }

  /** Stable ascending sort by `key`. */
  function SortBy<T>(s: seq<T>, key: T -> int): (r: seq<T>)
    ensures |r| == |s|
  {
    if s == [] then [] else Insert(SortBy(s[..|s| - 1], key), s[|s| - 1], key)
  }

  lemma {:induction false} InsertSorted<T>(s: seq<T>, x: T, key: T -> int)
    requires SortedBy(s, key)
    ensures SortedBy(Insert(s, x, key), key)
  {
    if s == [] || key(s[|s| - 1]) <= key(x) {
    } else {
      var q, y := s[..|s| - 1], s[|s| - 1];
      InsertSorted(q, x, key);
      InsertMultiset(q, x, key);
      var r := Insert(q, x, key);
      forall e | e in r ensures key(e) <= key(y) {
        assert e in multiset(r);
        if e != x {
          assert e in multiset(q);
          var i :| 0 <= i < |q| && q[i] == e;
          assert s[i] == e;
        }
      }
      assert forall i :: 0 <= i < |r| ==> r[i] in r;
    }
  }

  lemma {:induction false} InsertMultiset<T>(s: seq<T>, x: T, key: T -> int)
    ensures multiset(Insert(s, x, key)) == multiset(s) + multiset{x}
  {
    if s == [] || key(s[|s| - 1]) <= key(x) {
    } else {
      var q, y := s[..|s| - 1], s[|s| - 1];
      InsertMultiset(q, x, key);
      assert s == q + [y];
    }
  }

  lemma {:induction false} InsertWithKey<T>(s: seq<T>, x: T, key: T -> int, k: int)
    ensures WithKey(Insert(s, x, key), key, k) == WithKey(s, key, k) + (if key(x) == k then [x] else [])
  {
    if s == [] || key(s[|s| - 1]) <= key(x) {
      assert (s + [x])[..|s|] == s;
    } else {
      var q, y := s[..|s| - 1], s[|s| - 1];
      InsertWithKey(q, x, key, k);
      var r := Insert(q, x, key);
      assert (r + [y])[..|r|] == r;
    }
  }

  /** The sort result is ordered by key. */
  lemma {:induction false} SortByIsSorted<T>(s: seq<T>, key: T -> int)
    ensures SortedBy(SortBy(s, key), key)
  {
    if s != [] {
      SortByIsSorted(s[..|s| - 1], key);
      InsertSorted(SortBy(s[..|s| - 1], key), s[|s| - 1], key);
    }
  }

  /** The sort result holds exactly the input's elements. */
  lemma {:induction false} SortByIsPermutation<T>(s: seq<T>, key: T -> int)
    ensures multiset(SortBy(s, key)) == multiset(s)
  {
    if s != [] {
      var q, y := s[..|s| - 1], s[|s| - 1];
      SortByIsPermutation(q, key);
      InsertMultiset(SortBy(q, key), y, key);
      assert s == q + [y];
    }
  }

  /** Elements with equal keys keep their relative input order. */
  lemma {:induction false} SortByIsStable<T>(s: seq<T>, key: T -> int, k: int)
    ensures WithKey(SortBy(s, key), key, k) == WithKey(s, key, k)
  {
    if s != [] {
      var q, y := s[..|s| - 1], s[|s| - 1];
      SortByIsStable(q, key, k);
      InsertWithKey(SortBy(q, key), y, key, k);
    }
  }

  lemma {:induction false} WithKeyNonEmpty<T>(s: seq<T>, key: T -> int, k: int)
    requires WithKey(s, key, k) != []
    ensures exists i :: 0 <= i < |s| && key(s[i]) == k
  {
    var q := s[..|s| - 1];
    if key(s[|s| - 1]) != k {
      WithKeyNonEmpty(q, key, k);
      var i :| 0 <= i < |q| && key(q[i]) == k;
      assert s[i] == q[i];
    }
  }

  /**
   * Two sequences that are both sorted by key and have the same elements of
   * every key in the same order are equal: a stable sort has one possible result.
   */
  lemma {:induction false} StableSortUnique<T>(r: seq<T>, t: seq<T>, key: T -> int)
    requires SortedBy(r, key) && SortedBy(t, key)
    requires forall k :: WithKey(r, key, k) == WithKey(t, key, k)
    ensures r == t
  {
    if r != [] {
      assert WithKey(r, key, key(r[|r| - 1])) != [];
    }
    if t != [] {
      assert WithKey(t, key, key(t[|t| - 1])) != [];
    }
    if r != [] && t != [] {
      var r', x := r[..|r| - 1], r[|r| - 1];
      var t', y := t[..|t| - 1], t[|t| - 1];
      assert WithKey(r, key, key(x)) != [];
      WithKeyNonEmpty(t, key, key(x));
      assert key(x) <= key(y);
      assert WithKey(t, key, key(y)) != [];
      WithKeyNonEmpty(r, key, key(y));
      assert key(y) <= key(x);
      var m := key(x);
      assert WithKey(r, key, m) == WithKey(r', key, m) + [x];
      assert WithKey(t, key, m) == WithKey(t', key, m) + [y];
      assert WithKey(r, key, m) == WithKey(t, key, m);
      assert x == WithKey(r, key, m)[|WithKey(r, key, m)| - 1];
      forall k ensures WithKey(r', key, k) == WithKey(t', key, k) {
        if k != m {
          assert WithKey(r, key, k) == WithKey(r', key, k);
          assert WithKey(t, key, k) == WithKey(t', key, k);
        } else {
          assert WithKey(r', key, m) == WithKey(r, key, m)[..|WithKey(r, key, m)| - 1];
        }
      }
      StableSortUnique(r', t', key);
    }
  }

  /** Any sorted, stable rearrangement of `s` is `SortBy(s, key)`. */
  lemma StableSortIsSortBy<T>(s: seq<T>, r: seq<T>, key: T -> int)
    requires SortedBy(r, key)
    requires forall k :: WithKey(r, key, k) == WithKey(s, key, k)
    ensures r == SortBy(s, key)
  {
    SortByIsSorted(s, key);
    forall k ensures WithKey(r, key, k) == WithKey(SortBy(s, key), key, k) {
      SortByIsStable(s, key, k);
    }
    StableSortUnique(r, SortBy(s, key), key);
  }

  /** Moving one step left past a greater key keeps the split of `Insert`. */
  lemma InsertShift<T>(prefix: seq<T>, x: T, key: T -> int, j: nat)
    requires 0 < j <= |prefix| && key(prefix[j - 1]) > key(x)
    ensures Insert(prefix[..j], x, key) + prefix[j..] == Insert(prefix[..j - 1], x, key) + prefix[j - 1..]
  {
    var p, y := prefix[..j], prefix[j - 1];
    assert p[..|p| - 1] == prefix[..j - 1] && p[|p| - 1] == y;
    assert Insert(p, x, key) == Insert(prefix[..j - 1], x, key) + [y];
    assert prefix[j - 1..] == [y] + prefix[j..];
  }

  /** Where the key to its left is not greater, `x` goes in place. */
  lemma InsertStop<T>(prefix: seq<T>, x: T, key: T -> int, j: nat)
    requires j <= |prefix| && (j == 0 || key(prefix[j - 1]) <= key(x))
    ensures Insert(prefix[..j], x, key) + prefix[j..] == prefix[..j] + [x] + prefix[j..]
  {
    if j > 0 {
      assert prefix[..j][j - 1] == prefix[j - 1];
    }
  }

  /**
   * The array part-way through one pass of the in-place sort: `s[j..i]` has
   * moved one place right and the hole at `j` still holds `s[j]`.
   */
  ghost function Shifted<T>(s: seq<T>, j: nat, i: nat): (r: seq<T>)
    requires j <= i < |s|
  {
    s[..j + 1] + s[j..i] + s[i + 1..]
  }

  lemma ShiftedStart<T>(s: seq<T>, i: nat)
    requires i < |s|
    ensures Shifted(s, i, i) == s
  {
    assert s[..i + 1] + s[i + 1..] == s;
  }

  /** Copying the element left of the hole into it moves the hole one place left. */
  lemma ShiftedStep<T>(s: seq<T>, j: nat, i: nat)
    requires 0 < j <= i < |s|
    ensures Shifted(s, j, i)[j - 1] == s[j - 1]
    ensures Shifted(s, j, i)[j := s[j - 1]] == Shifted(s, j - 1, i)
  {
    var u, v := Shifted(s, j, i)[j := s[j - 1]], Shifted(s, j - 1, i);
    assert |u| == |v|;
    forall k | 0 <= k < |u| ensures u[k] == v[k] {
      if j < k <= i {
        assert u[k] == s[k - 1];
      }
    }
  }

  /** Filling the hole with `x` places it between the two halves of the prefix. */
  lemma ShiftedFill<T>(s: seq<T>, j: nat, i: nat, x: T)
    requires j <= i < |s|
    ensures Shifted(s, j, i)[j := x] == s[..i][..j] + [x] + s[..i][j..] + s[i + 1..]
  {
    var u, v := Shifted(s, j, i)[j := x], s[..i][..j] + [x] + s[..i][j..] + s[i + 1..];
    assert |u| == |v|;
    forall k | 0 <= k < |u| ensures u[k] == v[k] {
      if j < k <= i {
        assert u[k] == s[k - 1];
      }
    }
  }

  /**
   * One pass of the in-place sort: moves `a[i]` left past the elements of the
   * sorted prefix whose key is greater, shifting them one place right.
   */
  method InsertAt<T>(a: array<T>, i: nat, key: T -> int)
    requires i < a.Length
    modifies a
    ensures a[..] == Insert(old(a[..i]), old(a[i]), key) + old(a[i + 1..])
  {
    ghost var s := a[..];
    ghost var prefix := s[..i];
    var x := a[i];
    assert prefix[..i] == prefix && prefix[i..] == [];
    ShiftedStart(s, i);
    var j := i;
    while j > 0 && key(a[j - 1]) > key(x)
      invariant j <= i
      invariant a[..] == Shifted(s, j, i)
      invariant Insert(prefix[..j], x, key) + prefix[j..] == Insert(prefix, x, key)
    {
      ShiftedStep(s, j, i);
      InsertShift(prefix, x, key, j);
      a[j] := a[j - 1];
      j := j - 1;
    }
    if j > 0 {
      ShiftedStep(s, j, i);
    }
    InsertStop(prefix, x, key, j);
    ShiftedFill(s, j, i, x);
    a[j] := x;
  }

  /** Sorting one element more inserts it into the sorted prefix. */
  lemma SortByStep<T>(s: seq<T>, i: nat, key: T -> int)
    requires i < |s|
    ensures SortBy(s[..i + 1], key) == Insert(SortBy(s[..i], key), s[i], key)
  {
    assert s[..i + 1][..i] == s[..i];
  }

  /** The parts of a sequence made of a prefix of length `i` and a non-empty rest. */
  lemma SplitParts<T>(t: seq<T>, p: seq<T>, q: seq<T>)
    requires t == p + q && q != []
    ensures t[..|p|] == p && t[|p|] == q[0] && t[|p| + 1..] == q[1..]
  {
  }

  /** Copies a sequence into a fresh array, as spreading it into a new JS array does. */
  method ToArray<T>(s: seq<T>) returns (a: array<T>)
    ensures fresh(a)
    ensures a[..] == s
  {
    a := new T[|s|](i requires 0 <= i < |s| => s[i]);
  }

  /** Sorts `a` in place, ascending by `key`, keeping ties in their original order. */
  method SortInPlace<T>(a: array<T>, key: T -> int)
    modifies a
    ensures a[..] == SortBy(old(a[..]), key)
  {
    ghost var orig := a[..];
    var i := 0;
    while i < a.Length
      invariant 0 <= i <= a.Length
      invariant a[..] == SortBy(orig[..i], key) + orig[i..]
    {
      SplitParts(a[..], SortBy(orig[..i], key), orig[i..]);
      SortByStep(orig, i, key);
      InsertAt(a, i, key);
      i := i + 1;
    }
    assert orig[..a.Length] == orig && orig[a.Length..] == [];
  }
}
