/** Stable sorting by a "comes strictly before" relation: what Go's `sort.SliceStable` leaves behind. */
module Sorting {

  /** No later element comes strictly before an earlier one. */
  ghost predicate Sorted<T>(s: seq<T>, less: (T, T) -> bool) {
    forall i, j | 0 <= i < j < |s| :: !less(s[j], s[i])
  }

  /** `less` orders the elements of `s` up to ties: a strict weak order. */
  ghost predicate WeakOrderOn<T>(s: set<T>, less: (T, T) -> bool) {
    && (forall a, b | a in s && b in s && less(a, b) :: !less(b, a))
    && (forall a, b, c | a in s && b in s && c in s && !less(a, b) && !less(b, c) :: !less(a, c))
  }

  ghost function AnyOf<T>(s: set<T>): (x: T)
    requires s != {}
    ensures x in s
  {
    var x :| x in s;
    x
  }

  /** Ranging over a map or a set takes its elements in no particular order. */
  method PickAny<T(==)>(s: set<T>) returns (x: T)
    requires s != {}
    ensures x in s
  {
    x :| x in s;
  }

  function Elems<T>(s: seq<T>): set<T> {
    set x | x in s
  }

  ghost predicate NoDup<T>(s: seq<T>) {
    forall i, j | 0 <= i < j < |s| :: s[i] != s[j]
  }

  /** `x` goes behind every element it does not come strictly before. */
  function Insert<T>(x: T, s: seq<T>, less: (T, T) -> bool): (r: seq<T>)
    ensures |r| == |s| + 1
    ensures multiset(r) == multiset(s) + multiset{x}
  {
    if s == [] then [x]
    else
      assert s == s[..|s| - 1] + [s[|s| - 1]];
      if less(x, s[|s| - 1]) then Insert(x, s[..|s| - 1], less) + [s[|s| - 1]]
      else s + [x]
  }

  function StableSort<T>(s: seq<T>, less: (T, T) -> bool): (r: seq<T>)
    ensures |r| == |s|
    ensures multiset(r) == multiset(s)
  {
    if s == [] then []
    else
      assert s == s[..|s| - 1] + [s[|s| - 1]];
      Insert(s[|s| - 1], StableSort(s[..|s| - 1], less), less)
  }

  lemma SameElems<T>(s: seq<T>, r: seq<T>)
    requires multiset(s) == multiset(r)
    ensures Elems(s) == Elems(r)
  {
    forall x ensures x in s <==> x in r {
      assert x in multiset(s) <==> x in multiset(r);
    }
  }

  /** Appending keeps a sequence sorted when the new element precedes none of it. */
  lemma AppendSorted<T>(s: seq<T>, x: T, less: (T, T) -> bool)
    requires Sorted(s, less)
    requires forall y <- s :: !less(x, y)
    ensures Sorted(s + [x], less)
  {
  }

  lemma WeakOrderSubset<T>(s: set<T>, t: set<T>, less: (T, T) -> bool)
    requires WeakOrderOn(t, less) && s <= t
    ensures WeakOrderOn(s, less)
  {
  }

  lemma NoneBefore<T>(x: T, s: seq<T>, less: (T, T) -> bool)
    requires WeakOrderOn(Elems(s) + {x}, less) && Sorted(s, less) && s != [] && !less(x, s[|s| - 1])
    ensures forall y <- s :: !less(x, y)
  {
    var all, last := Elems(s) + {x}, s[|s| - 1];
    forall i | 0 <= i < |s| ensures !less(x, s[i]) {
      assert x in all && last in all && s[i] in all;
      if i < |s| - 1 {
        assert !less(last, s[i]);
      }
    }
  }

  /** The last element comes before neither those in front of it nor one put among those. */
  lemma LastAfter<T>(x: T, s: seq<T>, r: seq<T>, less: (T, T) -> bool)
    requires WeakOrderOn(Elems(s) + {x}, less) && Sorted(s, less) && s != [] && less(x, s[|s| - 1])
    requires multiset(r) == multiset(s[..|s| - 1]) + multiset{x}
    ensures forall y <- r :: !less(s[|s| - 1], y)
  {
    var n := |s| - 1;
    var all := Elems(s) + {x};
    assert s[n] in all && x in all;
    forall y | y in r ensures !less(s[n], y) {
      assert y in multiset(r);
      if y != x {
        var i :| 0 <= i < n && s[..n][i] == y;
        assert s[i] == y;
      }
    }
  }

  lemma {:induction false} InsertSorted<T>(x: T, s: seq<T>, less: (T, T) -> bool)
    requires WeakOrderOn(Elems(s) + {x}, less)
    requires Sorted(s, less)
    ensures Sorted(Insert(x, s, less), less)
  {
    if s != [] {
      var n := |s| - 1;
      var init, last := s[..n], s[n];
      assert last in Elems(s) + {x} && x in Elems(s) + {x};
      if less(x, last) {
        WeakOrderSubset(Elems(init) + {x}, Elems(s) + {x}, less);
        InsertSorted(x, init, less);
        LastAfter(x, s, Insert(x, init, less), less);
        AppendSorted(Insert(x, init, less), last, less);
      } else {
        NoneBefore(x, s, less);
        AppendSorted(s, x, less);
      }
    }
  }

  lemma {:induction false} SortSorted<T>(s: seq<T>, less: (T, T) -> bool)
    requires WeakOrderOn(Elems(s), less)
    ensures Sorted(StableSort(s, less), less)
  {
    if s != [] {
      var init, x := s[..|s| - 1], s[|s| - 1];
      WeakOrderSubset(Elems(init), Elems(s), less);
      SortSorted(init, less);
      SameElems(init, StableSort(init, less));
      WeakOrderSubset(Elems(StableSort(init, less)) + {x}, Elems(s), less);
      InsertSorted(x, StableSort(init, less), less);
    }
  }

  /** An element that every other one strictly precedes is sorted last. */
  /** The elements with a key, in their order. */
  function WithKey<T>(s: seq<T>, key: T -> int, k: int): seq<T> {
    if s == [] then []
    else
      var rest := WithKey(s[..|s| - 1], key, k);
      if key(s[|s| - 1]) == k then rest + [s[|s| - 1]] else rest
  }

  ghost predicate ByKey<T(!new)>(less: (T, T) -> bool, key: T -> int) {
    forall a, b :: less(a, b) <==> key(a) > key(b)
  }

  lemma WithKeyLast<T>(s: seq<T>, x: T, key: T -> int, k: int)
    ensures WithKey(s + [x], key, k) == if key(x) == k then WithKey(s, key, k) + [x] else WithKey(s, key, k)
  {
    assert (s + [x])[..|s|] == s;
  }

  lemma {:induction false} InsertStable<T(!new)>(x: T, s: seq<T>, less: (T, T) -> bool, key: T -> int, k: int)
    requires ByKey(less, key)
    ensures WithKey(Insert(x, s, less), key, k) == WithKey(s + [x], key, k)
  {
    if s != [] && less(x, s[|s| - 1]) {
      var init, last := s[..|s| - 1], s[|s| - 1];
      assert s == init + [last] && key(x) > key(last);
      InsertStable(x, init, less, key, k);
      WithKeySwap(init, x, last, Insert(x, init, less), key, k);
    }
  }

  lemma WithKeySwap<T>(init: seq<T>, x: T, last: T, r: seq<T>, key: T -> int, k: int)
    requires key(x) != key(last) && WithKey(r, key, k) == WithKey(init + [x], key, k)
    ensures WithKey(r + [last], key, k) == WithKey(init + [last] + [x], key, k)
  {
    WithKeyLast(r, last, key, k);
    WithKeyLast(init, x, key, k);
    WithKeyLast(init, last, key, k);
    WithKeyLast(init + [last], x, key, k);
  }

  /** Sorting leaves elements that tie in the order it found them in. */
  lemma {:induction false} SortStable<T(!new)>(s: seq<T>, less: (T, T) -> bool, key: T -> int, k: int)
    requires ByKey(less, key)
    ensures WithKey(StableSort(s, less), key, k) == WithKey(s, key, k)
  {
    if s != [] {
      var init, last := s[..|s| - 1], s[|s| - 1];
      assert s == init + [last];
      SortStable(init, less, key, k);
      SortStableLast(init, last, StableSort(init, less), less, key, k);
    }
  }

  lemma SortStableLast<T(!new)>(init: seq<T>, last: T, r: seq<T>, less: (T, T) -> bool, key: T -> int, k: int)
    requires ByKey(less, key) && WithKey(r, key, k) == WithKey(init, key, k)
    ensures WithKey(Insert(last, r, less), key, k) == WithKey(init + [last], key, k)
  {
    InsertStable(last, r, less, key, k);
    WithKeyLast(r, last, key, k);
    WithKeyLast(init, last, key, k);
  }

  lemma SortedLast<T>(s: seq<T>, less: (T, T) -> bool, last: T)
    requires Sorted(s, less) && last in s
    requires forall x | x in s && x != last :: less(x, last)
    ensures s[|s| - 1] == last
  {
    var p :| 0 <= p < |s| && s[p] == last;
    assert p < |s| - 1 ==> !less(s[|s| - 1], s[p]);
  }

  /** An element that strictly precedes every other one is sorted first. */
  lemma SortedFirst<T>(s: seq<T>, less: (T, T) -> bool, first: T)
    requires Sorted(s, less) && first in s
    requires forall x | x in s && x != first :: less(first, x)
    ensures s[0] == first
  {
    var p :| 0 <= p < |s| && s[p] == first;
    assert p > 0 ==> !less(s[p], s[0]);
  }

  lemma {:induction false} NoDupMultiset<T>(s: seq<T>)
    requires NoDup(s)
    ensures forall x <- s :: multiset(s)[x] == 1
  {
    if s != [] {
      var init, last := s[..|s| - 1], s[|s| - 1];
      assert s == init + [last];
      NoDupMultiset(init);
      forall x <- s ensures multiset(s)[x] == 1 {
        if x == last { assert last !in init; } else { assert x in init; }
      }
    }
  }

  lemma SortNoDup<T>(s: seq<T>, r: seq<T>)
    requires NoDup(s) && multiset(s) == multiset(r)
    ensures NoDup(r)
  {
    NoDupMultiset(s);
    forall i, j | 0 <= i < j < |r| ensures r[i] != r[j] {
      assert r == r[..i] + [r[i]] + r[i + 1..j] + [r[j]] + r[j + 1..];
      assert r[i] in multiset(s);
    }
  }

  lemma {:induction false} ElemsCardinality<T>(s: seq<T>)
    requires NoDup(s)
    ensures |Elems(s)| == |s|
  {
    if s != [] {
      var init := s[..|s| - 1];
      ElemsCardinality(init);
      assert s[|s| - 1] !in Elems(init);
      assert Elems(s) == Elems(init) + {s[|s| - 1]};
    }
  }
}
