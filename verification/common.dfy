/** Shared vocabulary: an optional value usable with `:-`, and bytes. */
module Common {

  /** An optional value; `None` stands for JavaScript's `null`/`undefined`. */
  datatype Option<+T> = None | Some(value: T) {

    predicate IsFailure() {
      None?
    }

    function PropagateFailure<U>(): Option<U>
      requires None?
    {
      None
    }

    function Extract(): T
      requires Some?
    {
      value
    }

    /** The value held, or `default` when absent (JavaScript's `x ?? default`). */
    function GetOr(default: T): T {
      match this
      case Some(v) => v
      case None => default
    }
  }

  /** One octet of an account's data. */
  newtype Byte = x: int | 0 <= x < 256

  function MinReal(a: real, b: real): real {
    if a <= b then a else b
  }

  function MaxReal(a: real, b: real): real {
    if a >= b then a else b
  }

  function AbsReal(a: real): real {
    if a < 0.0 then -a else a
  }

  /**
   * `s.filter(keep)`: the elements of `s` that satisfy `keep`, in their original
   * order and with their multiplicities.
   */
  function Filter<T(==,!new)>(s: seq<T>, keep: T -> bool): (r: seq<T>)
    ensures |r| <= |s|
    ensures forall i :: 0 <= i < |r| ==> keep(r[i])
  {
    if |s| == 0 then []
    else
      var init := s[..|s| - 1];
      var last := s[|s| - 1];
      assert s == init + [last];
      Filter(init, keep) + (if keep(last) then [last] else [])
  }

  /** The filter keeps every copy of each passing element and no copy of any other. */
  lemma {:induction false} FilterCounts<T(!new)>(s: seq<T>, keep: T -> bool)
    ensures forall x :: multiset(Filter(s, keep))[x] == if keep(x) then multiset(s)[x] else 0
  {
    if |s| > 0 {
      var init := s[..|s| - 1];
      var last := s[|s| - 1];
      FilterCounts(init, keep);
      assert s == init + [last];
      assert Filter(s, keep) == Filter(init, keep) + (if keep(last) then [last] else []);
    }
  }

  /** Filtering with a test every element passes returns the very same sequence. */
  lemma {:induction false} FilterKeepsAll<T(!new)>(s: seq<T>, keep: T -> bool)
    requires forall i :: 0 <= i < |s| ==> keep(s[i])
    ensures Filter(s, keep) == s
  {
    if |s| > 0 {
      var init := s[..|s| - 1];
      FilterKeepsAll(init, keep);
      assert Filter(s, keep) == Filter(init, keep) + [s[|s| - 1]];
      assert s == init + [s[|s| - 1]];
    }
  }

  /** Filtering with a test no element passes leaves nothing. */
  lemma {:induction false} FilterKeepsNone<T(!new)>(s: seq<T>, keep: T -> bool)
    requires forall i :: 0 <= i < |s| ==> !keep(s[i])
    ensures Filter(s, keep) == []
  {
    if |s| > 0 {
      FilterKeepsNone(s[..|s| - 1], keep);
    }
  }

  /** Filtering distributes over concatenation. */
  lemma {:induction false} FilterAppend<T(!new)>(s: seq<T>, t: seq<T>, keep: T -> bool)
    ensures Filter(s + t, keep) == Filter(s, keep) + Filter(t, keep)
    decreases |t|
  {
    if |t| > 0 {
      var init := t[..|t| - 1];
      var last := t[|t| - 1];
      var tail := if keep(last) then [last] else [];
      FilterAppend(s, init, keep);
      var st := s + t;
      assert st[..|st| - 1] == s + init;
      assert st[|st| - 1] == last;
      assert Filter(st, keep) == Filter(s + init, keep) + tail;
      assert Filter(t, keep) == Filter(init, keep) + tail;
    } else {
      assert s + t == s;
    }
  }

  /** Everything the filter keeps passes the test and comes from `s`. */
  lemma FilterMember<T(!new)>(s: seq<T>, keep: T -> bool, x: T)
    requires x in Filter(s, keep)
    ensures keep(x) && x in s
  {
    FilterCounts(s, keep);
    assert multiset(Filter(s, keep))[x] > 0;
    assert x in multiset(s);
  }

  /** The conjunction of two tests. */
  function Both<T>(p: T -> bool, q: T -> bool): T -> bool {
    (x: T) => p(x) && q(x)
  }

  /** Two filters in a row are one filter with the conjoined test. */
  lemma {:induction false} FilterTwice<T(!new)>(s: seq<T>, p: T -> bool, q: T -> bool)
    ensures Filter(Filter(s, p), q) == Filter(s, Both(p, q))
  {
    if |s| > 0 {
      var init := s[..|s| - 1];
      var last := s[|s| - 1];
      var both := Both(p, q);
      FilterTwice(init, p, q);
      var lastP := if p(last) then [last] else [];
      assert Filter(s, p) == Filter(init, p) + lastP;
      FilterAppend(Filter(init, p), lastP, q);
      assert Filter(lastP, q) == (if both(last) then [last] else []) by {
        if p(last) {
          assert lastP[..0] == [];
        }
      }
    }
  }

  /** Concatenation regroups freely; stated once so that heavy proofs can cite it. */
  lemma AppendAssociative<T>(a: seq<T>, b: seq<T>, c: seq<T>)
    ensures a + (b + c) == (a + b) + c
  {
  }
}
