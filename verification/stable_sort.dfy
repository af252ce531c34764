/**
 * `Array.prototype.sort` with a comparator. Section 23.1.3.30 of ECMA-262 (2023
 * edition) requires the sort to be stable, and for a consistent comparator that
 * fixes the result: the unique stable sorted permutation, which insertion sort
 * computes. The comparator is a parameter; the dashboard's comparator is proved
 * consistent in the filters module.
 */
module StableSort {
  import opened Common

  /** Swapping the arguments negates the comparison. */
  ghost predicate Antisymmetric<T(!new)>(cmp: (T, T) -> int) {
    forall a, b :: cmp(a, b) == -cmp(b, a)
  }

  /** "Not after" is transitive. */
  ghost predicate Transitive<T(!new)>(cmp: (T, T) -> int) {
    forall a, b, c :: cmp(a, b) <= 0 && cmp(b, c) <= 0 ==> cmp(a, c) <= 0
  }

  /** A consistent comparator in the sense of ECMA-262: a total preorder. */
  ghost predicate Consistent<T(!new)>(cmp: (T, T) -> int) {
    Antisymmetric(cmp) && Transitive(cmp)
  }

  /** No element is followed by one that sorts strictly before it. */
  predicate Sorted<T>(s: seq<T>, cmp: (T, T) -> int) {
    forall i, j :: 0 <= i < j < |s| ==> cmp(s[i], s[j]) <= 0
  }

  /** Places `x` after every element of `s` it does not sort before. */
  function Insert<T>(x: T, s: seq<T>, cmp: (T, T) -> int): (r: seq<T>)
    ensures |r| == |s| + 1
    ensures r[0] == x || (|s| > 0 && r[0] == s[0])
  {
    if |s| == 0 then [x]
    else if cmp(x, s[0]) < 0 then [x] + s
    else [s[0]] + Insert(x, s[1..], cmp)
  }

  /**
   * `array.sort(cmp)`: inserts the elements one by one, in input order. The result
   * is a permutation of the input.
   */
  function Sort<T(!new)>(s: seq<T>, cmp: (T, T) -> int): (r: seq<T>)
    ensures |r| == |s|
    ensures multiset(r) == multiset(s)
  {
    if |s| == 0 then []
    else
      var init := s[..|s| - 1];
      var sorted := Sort(init, cmp);
      InsertPermutes(s[|s| - 1], sorted, cmp);
      assert s == init + [s[|s| - 1]];
      Insert(s[|s| - 1], sorted, cmp)
  }

  /** Inserting adds exactly one copy of `x`. */
  lemma {:induction false} InsertPermutes<T(!new)>(x: T, s: seq<T>, cmp: (T, T) -> int)
    ensures multiset(Insert(x, s, cmp)) == multiset(s) + multiset{x}
    decreases |s|
  {
    if |s| > 0 && cmp(x, s[0]) >= 0 {
      InsertPermutes(x, s[1..], cmp);
      assert s == [s[0]] + s[1..];
    }
  }

  /** Every element of the result is `x` or an element of `s`. */
  lemma {:induction false} InsertMembers<T(!new)>(x: T, s: seq<T>, cmp: (T, T) -> int)
    ensures forall y :: y in Insert(x, s, cmp) ==> y == x || y in s
    decreases |s|
  {
    if |s| > 0 && cmp(x, s[0]) >= 0 {
      InsertMembers(x, s[1..], cmp);
      assert s == [s[0]] + s[1..];
    }
  }

  /** An element that sorts no later than any element of a sorted sequence can lead it. */
  lemma PrependSorted<T>(x: T, s: seq<T>, cmp: (T, T) -> int)
    requires Sorted(s, cmp)
    requires forall j :: 0 <= j < |s| ==> cmp(x, s[j]) <= 0
    ensures Sorted([x] + s, cmp)
  {
    var r := [x] + s;
    forall i, j | 0 <= i < j < |r|
      ensures cmp(r[i], r[j]) <= 0
    {
      assert r[j] == s[j - 1];
      if i > 0 {
        assert r[i] == s[i - 1];
      }
    }
  }

  lemma {:induction false} InsertSorted<T(!new)>(x: T, s: seq<T>, cmp: (T, T) -> int)
    requires Consistent(cmp)
    requires Sorted(s, cmp)
    ensures Sorted(Insert(x, s, cmp), cmp)
    decreases |s|
  {
    if |s| == 0 {
    } else if cmp(x, s[0]) < 0 {
      forall j | 0 <= j < |s|
        ensures cmp(x, s[j]) <= 0
      {
        if j > 0 {
          assert cmp(s[0], s[j]) <= 0;
        }
      }
      PrependSorted(x, s, cmp);
    } else {
      var rest := s[1..];
      var t := Insert(x, rest, cmp);
      assert Sorted(rest, cmp);
      InsertSorted(x, rest, cmp);
      InsertMembers(x, rest, cmp);
      forall j | 0 <= j < |t|
        ensures cmp(s[0], t[j]) <= 0
      {
        assert t[j] in t;
        if t[j] != x {
          var m :| 0 <= m < |rest| && rest[m] == t[j];
          assert s[m + 1] == t[j];
        }
      }
      PrependSorted(s[0], t, cmp);
    }
  }

  /** The result of the sort is ordered by the comparator. */
  lemma {:induction false} SortSorted<T(!new)>(s: seq<T>, cmp: (T, T) -> int)
    requires Consistent(cmp)
    ensures Sorted(Sort(s, cmp), cmp)
  {
    if |s| > 0 {
      SortSorted(s[..|s| - 1], cmp);
      InsertSorted(s[|s| - 1], Sort(s[..|s| - 1], cmp), cmp);
    }
  }

  /** The elements of `s` that tie with `k`, in their order within `s`. */
  function Ties<T(==,!new)>(s: seq<T>, cmp: (T, T) -> int, k: T): seq<T> {
    Filter(s, TiesWith(cmp, k))
  }

  /** The test "ties with `k`". */
  function TiesWith<T>(cmp: (T, T) -> int, k: T): T -> bool {
    (n: T) => cmp(n, k) == 0
  }

  /** Filtering a one-element sequence. */
  lemma FilterSingle<T(!new)>(x: T, keep: T -> bool)
    ensures Filter([x], keep) == if keep(x) then [x] else []
  {
    assert [x][..0] == [];
  }

  /** Nothing after an element that sorts strictly before the whole sequence shares its class. */
  lemma NoTiesAfter<T(!new)>(x: T, s: seq<T>, cmp: (T, T) -> int, k: T)
    requires Consistent(cmp)
    requires Sorted(s, cmp)
    requires |s| > 0 && cmp(x, s[0]) < 0 && cmp(x, k) == 0
    ensures Ties(s, cmp, k) == []
  {
    forall j | 0 <= j < |s|
      ensures cmp(s[j], k) != 0
    {
      if j > 0 {
        assert cmp(s[0], s[j]) <= 0;
      }
      assert cmp(x, s[j]) < 0;
    }
    FilterKeepsNone(s, TiesWith(cmp, k));
  }

  /** The tie class of `x` comes out with `x` at its end. */
  lemma {:induction false} InsertTies<T(!new)>(x: T, s: seq<T>, cmp: (T, T) -> int, k: T)
    requires Consistent(cmp)
    requires Sorted(s, cmp)
    ensures Ties(Insert(x, s, cmp), cmp, k) == Ties(s, cmp, k) + (if cmp(x, k) == 0 then [x] else [])
    decreases |s|
  {
    var keep := TiesWith(cmp, k);
    var tx := if cmp(x, k) == 0 then [x] else [];
    FilterSingle(x, keep);
    assert Filter([x], keep) == tx;
    if |s| == 0 {
      assert Insert(x, s, cmp) == [x];
      assert Ties(s, cmp, k) == [];
      assert Ties(Insert(x, s, cmp), cmp, k) == Ties(s, cmp, k) + tx;
    } else if cmp(x, s[0]) < 0 {
      assert Insert(x, s, cmp) == [x] + s;
      FilterAppend([x], s, keep);
      assert Ties(Insert(x, s, cmp), cmp, k) == tx + Ties(s, cmp, k);
      if cmp(x, k) == 0 {
        NoTiesAfter(x, s, cmp, k);
        assert Ties(Insert(x, s, cmp), cmp, k) == Ties(s, cmp, k) + tx;
      } else {
        assert Ties(Insert(x, s, cmp), cmp, k) == Ties(s, cmp, k) + tx;
      }
    } else {
      var rest := s[1..];
      var head := Filter([s[0]], keep);
      assert s == [s[0]] + rest;
      assert Sorted(rest, cmp);
      InsertTies(x, rest, cmp, k);
      assert Insert(x, s, cmp) == [s[0]] + Insert(x, rest, cmp);
      FilterAppend([s[0]], Insert(x, rest, cmp), keep);
      FilterAppend([s[0]], rest, keep);
      var mid := Ties(rest, cmp, k);
      assert Ties(Insert(x, s, cmp), cmp, k) == head + (mid + tx);
      assert Ties(s, cmp, k) == head + mid;
      AppendAssociative(head, mid, tx);
    }
  }

  /** Stability: each class of tied elements keeps its input order. */
  lemma {:induction false} SortStable<T(!new)>(s: seq<T>, cmp: (T, T) -> int, k: T)
    requires Consistent(cmp)
    ensures Ties(Sort(s, cmp), cmp, k) == Ties(s, cmp, k)
  {
    if |s| > 0 {
      var init := s[..|s| - 1];
      var last := s[|s| - 1];
      var keep := TiesWith(cmp, k);
      SortStable(init, cmp, k);
      SortSorted(init, cmp);
      InsertTies(last, Sort(init, cmp), cmp, k);
      assert s == init + [last];
      FilterAppend(init, [last], keep);
      FilterSingle(last, keep);
    }
  }

  /** An element no earlier element sorts after goes to the end. */
  lemma {:induction false} InsertAtEnd<T(!new)>(x: T, s: seq<T>, cmp: (T, T) -> int)
    requires Antisymmetric(cmp)
    requires forall i :: 0 <= i < |s| ==> cmp(s[i], x) <= 0
    ensures Insert(x, s, cmp) == s + [x]
    decreases |s|
  {
    if |s| > 0 {
      assert cmp(x, s[0]) >= 0;
      InsertAtEnd(x, s[1..], cmp);
      assert s == [s[0]] + s[1..];
    }
  }

  /** Sorting an already sorted sequence changes nothing. */
  lemma {:induction false} SortIdempotent<T(!new)>(s: seq<T>, cmp: (T, T) -> int)
    requires Antisymmetric(cmp)
    requires Sorted(s, cmp)
    ensures Sort(s, cmp) == s
  {
    if |s| > 0 {
      var init := s[..|s| - 1];
      assert Sorted(init, cmp);
      SortIdempotent(init, cmp);
      InsertAtEnd(s[|s| - 1], init, cmp);
      assert s == init + [s[|s| - 1]];
    }
  }
}
