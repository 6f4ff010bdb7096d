/** The in-place sorts of the analyzer (`uasort` of the discovered
    namespaces, `usort` of the analysed routes). Both comparators are
    `strcmp` on a first string, then (for routes) `strcmp` on a second one,
    so both are expressed as a key of two strings compared
    lexicographically. */
module Sorting {
  import opened PhpStrings

  /** A sort key: primary string, secondary string. */
  type SortKey = (string, string)

  /** The comparator returns a value `<= 0`. */
  predicate KeyLe(a: SortKey, b: SortKey) {
    StrLess(a.0, b.0) || (a.0 == b.0 && (a.1 == b.1 || StrLess(a.1, b.1)))
  }

  lemma KeyLeTotal(a: SortKey, b: SortKey)
    ensures KeyLe(a, b) || KeyLe(b, a)
  {
    StrLessTrichotomy(a.0, b.0);
    StrLessTrichotomy(a.1, b.1);
  }

  lemma KeyLeTransitive(a: SortKey, b: SortKey, c: SortKey)
    requires KeyLe(a, b) && KeyLe(b, c)
    ensures KeyLe(a, c)
  {
    if StrLess(a.0, b.0) && StrLess(b.0, c.0) {
      StrLessTransitive(a.0, b.0, c.0);
    }
    if a.0 == b.0 == c.0 && StrLess(a.1, b.1) && StrLess(b.1, c.1) {
      StrLessTransitive(a.1, b.1, c.1);
    }
  }

  /** Keys compare equal only when they are equal. */
  lemma KeyLeAntisymmetric(a: SortKey, b: SortKey)
    requires KeyLe(a, b) && KeyLe(b, a)
    ensures a == b
  {
    StrLessTrichotomy(a.0, b.0);
    StrLessTrichotomy(a.1, b.1);
  }

  ghost predicate SortedBy<T>(s: seq<T>, key: T -> SortKey) {
    forall i, j :: 0 <= i < j < |s| ==> KeyLe(key(s[i]), key(s[j]))
  }

  /** The elements of `s` whose key is `k`, in their order in `s`. */
  function WithKey<T>(s: seq<T>, key: T -> SortKey, k: SortKey): seq<T>
    decreases |s|
  {
    if |s| == 0 then []
    else WithKey(s[..|s| - 1], key, k) + (if key(s[|s| - 1]) == k then [s[|s| - 1]] else [])
  }

  /** A sort is stable when every run of equal keys keeps its order. */
  ghost predicate Stable<T>(s: seq<T>, r: seq<T>, key: T -> SortKey) {
    forall k :: WithKey(r, key, k) == WithKey(s, key, k)
  }

  /** `x` inserted into `s` just after the last element whose key is not
      greater than its own: the step of a stable insertion sort, which scans
      from the right and stops at the first element that is not greater. */
  function Insert<T>(s: seq<T>, x: T, key: T -> SortKey): seq<T>
    decreases |s|
  {
    if |s| == 0 || KeyLe(key(s[|s| - 1]), key(x)) then s + [x]
    else Insert(s[..|s| - 1], x, key) + [s[|s| - 1]]
  }

  /** Stable insertion sort, inserting the elements from left to right. */
  function InsertionSort<T>(s: seq<T>, key: T -> SortKey): seq<T>
    decreases |s|
  {
    if |s| == 0 then [] else Insert(InsertionSort(s[..|s| - 1], key), s[|s| - 1], key)
  }

  /** Inserting adds exactly `x`. */
  lemma {:induction false} InsertMultiset<T>(s: seq<T>, x: T, key: T -> SortKey)
    ensures multiset(Insert(s, x, key)) == multiset(s) + multiset{x}
    decreases |s|
  {
    if |s| > 0 && !KeyLe(key(s[|s| - 1]), key(x)) {
      InsertMultiset(s[..|s| - 1], x, key);
      assert s == s[..|s| - 1] + [s[|s| - 1]];
    }
  }

  /** Appending an element whose key is not below any other keeps a list sorted. */
  lemma SortedSnoc<T>(s: seq<T>, x: T, key: T -> SortKey)
    requires SortedBy(s, key)
    requires forall e :: e in s ==> KeyLe(key(e), key(x))
    ensures SortedBy(s + [x], key)
  {
    var r := s + [x];
    forall i, j | 0 <= i < j < |r|
      ensures KeyLe(key(r[i]), key(r[j]))
    {
      if j == |s| {
        assert r[i] in s;
      }
    }
  }

  /** Inserting keeps a sorted list sorted. */
  lemma {:induction false} InsertSorted<T>(s: seq<T>, x: T, key: T -> SortKey)
    requires SortedBy(s, key)
    ensures SortedBy(Insert(s, x, key), key)
    decreases |s|
  {
    if |s| == 0 {
    } else if KeyLe(key(s[|s| - 1]), key(x)) {
      forall e | e in s
        ensures KeyLe(key(e), key(x))
      {
        SortedLastIsGreatest(s, key, e);
        KeyLeTransitive(key(e), key(s[|s| - 1]), key(x));
      }
      SortedSnoc(s, x, key);
    } else {
      var init, last := s[..|s| - 1], s[|s| - 1];
      assert SortedBy(init, key);
      InsertSorted(init, x, key);
      InsertMultiset(init, x, key);
      var t := Insert(init, x, key);
      KeyLeTotal(key(last), key(x));
      forall e | e in t
        ensures KeyLe(key(e), key(last))
      {
        assert e in multiset(init) + multiset{x};
        if e != x {
          assert e in s;
          SortedLastIsGreatest(s, key, e);
        }
      }
      SortedSnoc(t, last, key);
    }
  }

  /** Inserting adds exactly `x`, and keeps a sorted list sorted. */
  lemma InsertSpec<T>(s: seq<T>, x: T, key: T -> SortKey)
    ensures multiset(Insert(s, x, key)) == multiset(s) + multiset{x}
    ensures SortedBy(s, key) ==> SortedBy(Insert(s, x, key), key)
  {
    InsertMultiset(s, x, key);
    if SortedBy(s, key) {
      InsertSorted(s, x, key);
    }
  }

  /** The insertion sort is a sorted permutation of its input. */
  lemma {:induction false} InsertionSortSpec<T>(s: seq<T>, key: T -> SortKey)
    ensures SortedBy(InsertionSort(s, key), key)
    ensures multiset(InsertionSort(s, key)) == multiset(s)
    ensures |InsertionSort(s, key)| == |s|
    decreases |s|
  {
    if |s| > 0 {
      var init := s[..|s| - 1];
      InsertionSortSpec(init, key);
      InsertSpec(InsertionSort(init, key), s[|s| - 1], key);
      assert s == init + [s[|s| - 1]];
      assert |multiset(InsertionSort(s, key))| == |multiset(s)|;
    }
  }

  lemma WithKeySnoc<T>(s: seq<T>, x: T, key: T -> SortKey, k: SortKey)
    ensures WithKey(s + [x], key, k) == WithKey(s, key, k) + (if key(x) == k then [x] else [])
  {
    assert (s + [x])[..|s|] == s;
  }

  /** Inserting `x` puts it after every element with the same key. */
  lemma {:induction false} InsertStable<T>(s: seq<T>, x: T, key: T -> SortKey, k: SortKey)
    ensures WithKey(Insert(s, x, key), key, k) == WithKey(s, key, k) + (if key(x) == k then [x] else [])
    decreases |s|
  {
    if |s| == 0 || KeyLe(key(s[|s| - 1]), key(x)) {
      WithKeySnoc(s, x, key, k);
    } else {
      var init, last := s[..|s| - 1], s[|s| - 1];
      InsertStable(init, x, key, k);
      WithKeySnoc(Insert(init, x, key), last, key, k);
      assert s == init + [last];
      WithKeySnoc(init, last, key, k);
      if key(x) == k {
        assert key(last) != k;
      }
    }
  }

  /** The insertion sort is stable. */
  lemma {:induction false} InsertionSortStable<T>(s: seq<T>, key: T -> SortKey)
    ensures Stable(s, InsertionSort(s, key), key)
    decreases |s|
  {
    if |s| > 0 {
      var init, last := s[..|s| - 1], s[|s| - 1];
      InsertionSortStable(init, key);
      assert s == init + [last];
      forall k
        ensures WithKey(InsertionSort(s, key), key, k) == WithKey(s, key, k)
      {
        InsertStable(InsertionSort(init, key), last, key, k);
        WithKeySnoc(init, last, key, k);
      }
    }
  }

  /** The elements kept for a key are elements of the list with that key. */
  lemma {:induction false} WithKeyMembers<T>(s: seq<T>, key: T -> SortKey, k: SortKey, x: T)
    requires x in WithKey(s, key, k)
    ensures x in s && key(x) == k
    decreases |s|
  {
    var init := s[..|s| - 1];
    if x in WithKey(init, key, k) {
      WithKeyMembers(init, key, k, x);
      assert x in init;
    }
  }

  /** The last element of a sorted list has the greatest key. */
  lemma SortedLastIsGreatest<T>(r: seq<T>, key: T -> SortKey, x: T)
    requires SortedBy(r, key) && x in r
    ensures KeyLe(key(x), key(r[|r| - 1]))
  {
    var p :| 0 <= p < |r| && r[p] == x;
    if p < |r| - 1 {
      assert KeyLe(key(r[p]), key(r[|r| - 1]));
    }
  }

  /** The run of a nonempty list's last key ends with its last element. */
  lemma WithKeyOfLast<T>(r: seq<T>, key: T -> SortKey)
    requires |r| > 0
    ensures var y := r[|r| - 1];
      WithKey(r, key, key(y)) == WithKey(r[..|r| - 1], key, key(y)) + [y]
  {
  }

  /** Equal runs stay equal when the same last element is removed. */
  lemma WithKeyDropLast<T>(init1: seq<T>, init2: seq<T>, y: T, key: T -> SortKey)
    requires forall k :: WithKey(init1 + [y], key, k) == WithKey(init2 + [y], key, k)
    ensures forall k :: WithKey(init1, key, k) == WithKey(init2, key, k)
  {
    forall k
      ensures WithKey(init1, key, k) == WithKey(init2, key, k)
    {
      assert WithKey(init1 + [y], key, k) == WithKey(init2 + [y], key, k);
      WithKeySnoc(init1, y, key, k);
      WithKeySnoc(init2, y, key, k);
      var a, b := WithKey(init1, key, k), WithKey(init2, key, k);
      if key(y) == k {
        assert a + [y] == b + [y];
        assert a == (a + [y])[..|a|] && b == (b + [y])[..|b|];
      } else {
        assert a + [] == b + [];
        assert a + [] == a && b + [] == b;
      }
    }
  }

  /** Two sorted nonempty lists with the same runs end with the same element. */
  lemma SameLast<T>(r1: seq<T>, r2: seq<T>, key: T -> SortKey)
    requires |r1| > 0 && |r2| > 0
    requires SortedBy(r1, key) && SortedBy(r2, key)
    requires forall k :: WithKey(r1, key, k) == WithKey(r2, key, k)
    ensures r1[|r1| - 1] == r2[|r2| - 1]
  {
    var y, z := r1[|r1| - 1], r2[|r2| - 1];
    WithKeyOfLast(r1, key);
    WithKeyOfLast(r2, key);
    assert y in WithKey(r2, key, key(y));
    WithKeyMembers(r2, key, key(y), y);
    SortedLastIsGreatest(r2, key, y);
    assert z in WithKey(r1, key, key(z));
    WithKeyMembers(r1, key, key(z), z);
    SortedLastIsGreatest(r1, key, z);
    KeyLeAntisymmetric(key(y), key(z));
    var w1, w2 := WithKey(r1[..|r1| - 1], key, key(y)), WithKey(r2[..|r2| - 1], key, key(y));
    assert w1 + [y] == w2 + [z];
    assert (w1 + [y])[|w1 + [y]| - 1] == y;
  }

  /** A sorted list is fixed by its runs of equal keys: two sorted lists
      with the same elements in the same order for every key are equal. */
  lemma {:induction false} SortedStableUnique<T>(r1: seq<T>, r2: seq<T>, key: T -> SortKey)
    requires SortedBy(r1, key) && SortedBy(r2, key)
    requires forall k :: WithKey(r1, key, k) == WithKey(r2, key, k)
    ensures r1 == r2
    decreases |r1| + |r2|
  {
    if |r1| == 0 || |r2| == 0 {
      var r := if |r1| == 0 then r2 else r1;
      if |r| > 0 {
        var y := r[|r| - 1];
        WithKeyOfLast(r, key);
        assert WithKey([], key, key(y)) == [];
        assert false;
      }
    } else {
      SameLast(r1, r2, key);
      var init1, init2, y := r1[..|r1| - 1], r2[..|r2| - 1], r1[|r1| - 1];
      assert r1 == init1 + [y] && r2 == init2 + [y];
      WithKeyDropLast(init1, init2, y, key);
      SortedStableUnique(init1, init2, key);
    }
  }

  /** Any stable sort of `s` gives the insertion sort of `s`. */
  lemma StableSortIsInsertionSort<T>(s: seq<T>, r: seq<T>, key: T -> SortKey)
    requires SortedBy(r, key) && Stable(s, r, key)
    ensures r == InsertionSort(s, key)
  {
    InsertionSortSpec(s, key);
    InsertionSortStable(s, key);
    SortedStableUnique(r, InsertionSort(s, key), key);
  }

  /** Exchanges two neighbouring elements. */
  method SwapDown<T>(a: array<T>, j: int)
    requires 0 < j < a.Length
    modifies a
    ensures a[j - 1] == old(a[j]) && a[j] == old(a[j - 1])
    ensures forall m :: 0 <= m < a.Length && m != j - 1 && m != j ==> a[m] == old(a[m])
    ensures multiset(a[..]) == multiset(old(a[..]))
  {
    a[j - 1], a[j] := a[j], a[j - 1];
  }

  /** One more element of the insertion sort: moving `a[i]` left past every
      element with a greater key (and no further) inserts it into the prefix
      of length `i`. */
  lemma InsertSkip<T>(p: seq<T>, j: nat, x: T, key: T -> SortKey)
    requires 0 < j <= |p| && !KeyLe(key(p[j - 1]), key(x))
    ensures Insert(p[..j], x, key) + p[j..] == Insert(p[..j - 1], x, key) + p[j - 1..]
  {
    assert p[..j][..j - 1] == p[..j - 1];
    assert p[j - 1..] == [p[j - 1]] + p[j..];
  }

  method InsertAt<T>(a: array<T>, i: int, key: T -> SortKey)
    requires 0 <= i < a.Length
    modifies a
    ensures a[..i + 1] == Insert(old(a[..i]), old(a[i]), key)
    ensures forall m :: i < m < a.Length ==> a[m] == old(a[m])
  {
    ghost var p := a[..i];
    ghost var x := a[i];
    var j := i;
    assert p[..j] == p && p[j..] == [];
    while 0 < j && !KeyLe(key(a[j - 1]), key(a[j]))
      invariant 0 <= j <= i
      invariant forall m :: 0 <= m < j ==> a[m] == p[m]
      invariant a[j] == x
      invariant forall m :: j < m <= i ==> a[m] == p[m - 1]
      invariant forall m :: i < m < a.Length ==> a[m] == old(a[m])
      invariant Insert(p, x, key) == Insert(p[..j], x, key) + p[j..]
    {
      InsertSkip(p, j, x, key);
      SwapDown(a, j);
      j := j - 1;
    }
    assert Insert(p[..j], x, key) == p[..j] + [x];
    assert a[..i + 1] == p[..j] + [x] + p[j..];
  }

  /** Insertion sort in place: the array ends as the insertion sort of its
      initial contents, which is sorted, a permutation, and stable. */
  method SortByKey<T>(a: array<T>, key: T -> SortKey)
    modifies a
    ensures a[..] == InsertionSort(old(a[..]), key)
    ensures SortedBy(a[..], key)
    ensures multiset(a[..]) == multiset(old(a[..]))
    ensures Stable(old(a[..]), a[..], key)
  {
    ghost var s := a[..];
    for i := 0 to a.Length
      invariant a[..i] == InsertionSort(s[..i], key)
      invariant forall m :: i <= m < a.Length ==> a[m] == s[m]
    {
      InsertAt(a, i, key);
      assert s[..i + 1][..i] == s[..i];
    }
    assert a[..] == a[..a.Length];
    assert s[..a.Length] == s;
    InsertionSortSpec(s, key);
    InsertionSortStable(s, key);
  }

  /** The sorts applied to a list: copy it into an array, sort the array in
      place, and read it back. The result is the stable insertion sort of
      the list: sorted, a permutation, and keeping the order of equal keys. */
  method SortedCopy<T>(s: seq<T>, key: T -> SortKey) returns (r: seq<T>)
    ensures r == InsertionSort(s, key)
    ensures SortedBy(r, key)
    ensures multiset(r) == multiset(s)
    ensures |r| == |s|
    ensures Stable(s, r, key)
  {
    var a := new T[|s|](k requires 0 <= k < |s| => s[k]);
    assert a[..] == s;
    SortByKey(a, key);
    r := a[..];
    assert |multiset(r)| == |multiset(s)|;
  }
}
