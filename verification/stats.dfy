/**
 * The summary figures the main component (src/App.tsx) computes from the store's
 * node list: how many nodes, how many active, and the mean uptime and performance.
 */
module Stats {
  import opened Common
  import opened Node
  import opened Store
  import opened App

  /**
   * The figures. A mean is `None` when there are no nodes, where the source shows
   * the text "0"; the source renders a mean with two decimals.
   */
  datatype Stats = Stats(totalPNodes: nat, activePNodes: nat, avgUptime: Option<real>, avgPerformance: Option<real>)

  /** `nodes.reduce((sum, p) => sum + f(p), 0)`. */
  function Sum(nodes: seq<PNode>, f: PNode -> real): (r: real)
    ensures (forall i :: 0 <= i < |nodes| ==> f(nodes[i]) >= 0.0) ==> r >= 0.0
  {
    if |nodes| == 0 then 0.0
    else
      assert forall i :: 0 <= i < |nodes| - 1 ==> nodes[1..][i] == nodes[i + 1];
      f(nodes[0]) + Sum(nodes[1..], f)
  }

  function Uptime(n: PNode): real {
    n.uptime
  }

  function PerformanceOf(n: PNode): real {
    n.performance
  }

  function IsActive(n: PNode): bool {
    n.status == Active
  }

  /** The mean of `f` over the nodes, or `None` for no nodes. */
  function Mean(nodes: seq<PNode>, f: PNode -> real): (r: Option<real>)
    ensures r.None? <==> |nodes| == 0
    ensures r.Some? ==> r.value * |nodes| as real == Sum(nodes, f)
  {
    if |nodes| > 0 then Some(Sum(nodes, f) / |nodes| as real) else None
  }

  /** The `stats` object. */
  function ComputeStats(nodes: seq<PNode>): (r: Stats)
    ensures r.totalPNodes == |nodes|
    ensures r.activePNodes <= r.totalPNodes
    ensures r.activePNodes == |multiset(Filter(nodes, IsActive))|
    ensures r.avgUptime == Mean(nodes, Uptime) && r.avgPerformance == Mean(nodes, PerformanceOf)
  {
    Stats(|nodes|, |Filter(nodes, IsActive)|, Mean(nodes, Uptime), Mean(nodes, PerformanceOf))
  }

  /** A sum with one term taken out. */
  lemma {:induction false} SumRemove(s: seq<PNode>, j: nat, f: PNode -> real)
    requires j < |s|
    ensures Sum(s, f) == f(s[j]) + Sum(s[..j] + s[j + 1..], f)
    decreases j
  {
    if j > 0 {
      var t := s[1..];
      SumRemove(t, j - 1, f);
      var rest := t[..j - 1] + t[j..];
      var u := s[..j] + s[j + 1..];
      assert u == [s[0]] + rest;
      assert u[0] == s[0] && u[1..] == rest;
      assert Sum(u, f) == f(s[0]) + Sum(rest, f);
    } else {
      assert s[..0] + s[1..] == s[1..];
    }
  }

  /** A sum does not depend on the order of its terms. */
  lemma {:induction false} SumPermutation(a: seq<PNode>, b: seq<PNode>, f: PNode -> real)
    requires multiset(a) == multiset(b)
    ensures Sum(a, f) == Sum(b, f)
    decreases |a|
  {
    if |a| == 0 {
      assert |b| == |multiset(b)| == 0;
    } else {
      assert a[0] in multiset(b);
      var j :| 0 <= j < |b| && b[j] == a[0];
      var rest := b[..j] + b[j + 1..];
      assert b == b[..j] + [b[j]] + b[j + 1..];
      assert a == [a[0]] + a[1..];
      assert multiset(b) == multiset(b[..j]) + multiset{b[j]} + multiset(b[j + 1..]);
      assert multiset(rest) == multiset(b[..j]) + multiset(b[j + 1..]);
      assert multiset(a) == multiset{a[0]} + multiset(a[1..]);
      assert multiset(a[1..]) == multiset(a) - multiset{a[0]};
      assert multiset(rest) == multiset(b) - multiset{b[j]};
      SumPermutation(a[1..], rest, f);
      SumRemove(b, j, f);
    }
  }

  /** A sum of `n` terms in `[lo, hi]` lies in `[n * lo, n * hi]`. */
  lemma {:induction false} SumBounds(nodes: seq<PNode>, f: PNode -> real, lo: real, hi: real)
    requires forall i :: 0 <= i < |nodes| ==> lo <= f(nodes[i]) <= hi
    ensures lo * |nodes| as real <= Sum(nodes, f) <= hi * |nodes| as real
  {
    if |nodes| > 0 {
      var n := (|nodes| - 1) as real;
      SumBounds(nodes[1..], f, lo, hi);
      assert Sum(nodes, f) == f(nodes[0]) + Sum(nodes[1..], f);
      assert lo * |nodes| as real == lo + lo * n && hi * |nodes| as real == hi + hi * n;
    }
  }

  /** A quotient by a positive number keeps bounds scaled by that number. */
  lemma QuotientBounds(sum: real, n: real, lo: real, hi: real)
    requires n > 0.0 && lo * n <= sum <= hi * n
    ensures lo <= sum / n <= hi
  {
    var m := sum / n;
    assert m * n == sum;
    assert (m - hi) * n == sum - hi * n;
    assert (m - lo) * n == sum - lo * n;
  }

  /** When every node's value lies in `[lo, hi]`, so does the mean. */
  lemma MeanBounds(nodes: seq<PNode>, f: PNode -> real, lo: real, hi: real)
    requires forall i :: 0 <= i < |nodes| ==> lo <= f(nodes[i]) <= hi
    ensures Mean(nodes, f).Some? ==> lo <= Mean(nodes, f).value <= hi
  {
    SumBounds(nodes, f, lo, hi);
    if |nodes| > 0 {
      QuotientBounds(Sum(nodes, f), |nodes| as real, lo, hi);
    }
  }

  /** The figures depend only on which nodes there are, not on their order. */
  lemma StatsIgnoreOrder(a: seq<PNode>, b: seq<PNode>)
    requires multiset(a) == multiset(b)
    ensures ComputeStats(a) == ComputeStats(b)
  {
    assert |a| == |multiset(a)| == |multiset(b)| == |b|;
    SumPermutation(a, b, Uptime);
    SumPermutation(a, b, PerformanceOf);
    FilterCounts(a, IsActive);
    FilterCounts(b, IsActive);
    assert multiset(Filter(a, IsActive)) == multiset(Filter(b, IsActive));
  }

  /**
   * Sorting may reorder the store's node array in place, but the figures shown
   * above the table stay the same.
   */
  lemma SortKeepsStats(m: Main, key: SortKey)
    ensures ComputeStats(HandleSort(m, key).store.state.pNodes) == ComputeStats(m.store.state.pNodes)
  {
    StatsIgnoreOrder(HandleSort(m, key).store.state.pNodes, m.store.state.pNodes);
  }
}
