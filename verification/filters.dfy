/**
 * `applyFilters` (src/utils/filters.ts): narrow the node list by status tab and
 * search text, then sort it in place with the column comparator.
 *
 * When neither narrowing step applies, the array that gets sorted is the caller's
 * own array, so the caller's list comes back reordered. The model returns both
 * lists: `source` is the caller's array after the call, `view` the result.
 */
module Filters {
  import opened Common
  import opened Text
  import opened Node
  import opened Ordering
  import opened StableSort

  /** The table's query: status tab, search text and sort column/direction. */
  datatype Query = Query(filterStatus: FilterStatus, searchQuery: string, sortBy: SortKey, sortOrder: SortOrder)

  /** The caller's array after the call, and the list the call returns. */
  datatype Applied = Applied(source: seq<PNode>, view: seq<PNode>)

  /** The status tab keeps the node. */
  predicate StatusMatches(f: FilterStatus, n: PNode) {
    f.All? || n.status == f.status
  }

  /**
   * The search keeps the node: an empty search keeps everything; otherwise the
   * lower-cased text occurs in the lower-cased identity or peer id.
   */
  predicate SearchMatches(text: string, n: PNode) {
    text == [] || Contains(Lower(n.identity), Lower(text)) || Contains(Lower(n.peerId), Lower(text))
  }

  /** A query narrows the list when it has a status tab or a non-empty search. */
  predicate Narrows(q: Query) {
    !q.filterStatus.All? || q.searchQuery != []
  }

  function StatusTest(f: FilterStatus): PNode -> bool {
    (n: PNode) => StatusMatches(f, n)
  }

  function SearchTest(text: string): PNode -> bool {
    (n: PNode) => SearchMatches(text, n)
  }

  /** The one-pass reference: a node is selected when both steps keep it. */
  function Selects(q: Query): PNode -> bool {
    (n: PNode) => StatusMatches(q.filterStatus, n) && SearchMatches(q.searchQuery, n)
  }

  /** The nodes a query selects, in list order. */
  function Selected(nodes: seq<PNode>, q: Query): seq<PNode> {
    Filter(nodes, Selects(q))
  }

  /** The comparator `applyFilters` passes to `sort`. */
  function Comparator(key: SortKey, order: SortOrder): (PNode, PNode) -> int {
    (a: PNode, b: PNode) => Compare(key, order, a, b)
  }

  function QueryComparator(q: Query): (PNode, PNode) -> int {
    Comparator(q.sortBy, q.sortOrder)
  }

  /** The dashboard's comparator is consistent, so the sort's result is well defined. */
  lemma ComparatorConsistent(key: SortKey, order: SortOrder)
    ensures Consistent(Comparator(key, order))
  {
    var cmp := Comparator(key, order);
    forall a, b
      ensures cmp(a, b) == -cmp(b, a)
    {
      CompareAntisymmetric(key, order, a, b);
    }
    forall a, b, c | cmp(a, b) <= 0 && cmp(b, c) <= 0
      ensures cmp(a, c) <= 0
    {
      CompareTransitive(key, order, a, b, c);
    }
  }

  /** The status step followed by the search step is the one-pass selection. */
  lemma {:induction false} TwoStepsSelect(nodes: seq<PNode>, q: Query)
    ensures SearchStep(StatusStep(nodes, q.filterStatus), q.searchQuery) == Selected(nodes, q)
  {
    var afterStatus := StatusStep(nodes, q.filterStatus);
    if q.filterStatus.All? {
      FilterKeepsAll(nodes, StatusTest(q.filterStatus));
    }
    assert afterStatus == Filter(nodes, StatusTest(q.filterStatus));
    if q.searchQuery == [] {
      FilterKeepsAll(afterStatus, SearchTest(q.searchQuery));
    }
    assert SearchStep(afterStatus, q.searchQuery) == Filter(afterStatus, SearchTest(q.searchQuery));
    FilterTwice(nodes, StatusTest(q.filterStatus), SearchTest(q.searchQuery));
    FilterSameTest(nodes, Both(StatusTest(q.filterStatus), SearchTest(q.searchQuery)), Selects(q));
  }

  /** Filters with tests that agree everywhere agree. */
  lemma {:induction false} FilterSameTest(s: seq<PNode>, p: PNode -> bool, q: PNode -> bool)
    requires forall x :: p(x) == q(x)
    ensures Filter(s, p) == Filter(s, q)
  {
    if |s| > 0 {
      FilterSameTest(s[..|s| - 1], p, q);
    }
  }

  /** `if (filterStatus !== 'all') filtered = filtered.filter(...)`. */
  function StatusStep(nodes: seq<PNode>, f: FilterStatus): (r: seq<PNode>)
    ensures |r| <= |nodes|
    ensures forall i :: 0 <= i < |r| ==> StatusMatches(f, r[i])
  {
    if f.All? then nodes else Filter(nodes, StatusTest(f))
  }

  /** `if (searchQuery) filtered = filtered.filter(...)`. */
  function SearchStep(nodes: seq<PNode>, text: string): (r: seq<PNode>)
    ensures |r| <= |nodes|
    ensures forall i :: 0 <= i < |r| ==> SearchMatches(text, r[i])
  {
    if text == [] then nodes else Filter(nodes, SearchTest(text))
  }

  /**
   * Skipping a step that does not narrow is the same as running it: the "all" tab
   * and the empty search keep every node, in order. Each step keeps every copy of
   * a passing node and no copy of any other.
   */
  lemma StepsAreFilters(nodes: seq<PNode>, f: FilterStatus, text: string)
    ensures StatusStep(nodes, f) == Filter(nodes, StatusTest(f))
    ensures SearchStep(nodes, text) == Filter(nodes, SearchTest(text))
    ensures forall n :: multiset(StatusStep(nodes, f))[n] == if StatusMatches(f, n) then multiset(nodes)[n] else 0
    ensures forall n :: multiset(SearchStep(nodes, text))[n] == if SearchMatches(text, n) then multiset(nodes)[n] else 0
  {
    FilterCounts(nodes, StatusTest(f));
    FilterCounts(nodes, SearchTest(text));
    if f.All? {
      FilterKeepsAll(nodes, StatusTest(f));
    }
    if text == [] {
      FilterKeepsAll(nodes, SearchTest(text));
    }
  }

  /**
   * `applyFilters(nodes, q)`. The result is ordered by the comparator and holds
   * exactly the selected nodes; the caller's array is the result itself when the
   * query does not narrow, and untouched otherwise.
   */
  function ApplyFilters(nodes: seq<PNode>, q: Query): (r: Applied)
    ensures Sorted(r.view, QueryComparator(q))
    ensures multiset(r.view) == multiset(Selected(nodes, q))
    ensures Narrows(q) ==> r.source == nodes
    ensures !Narrows(q) ==> r.source == r.view && multiset(r.view) == multiset(nodes)
  {
    var filtered := SearchStep(StatusStep(nodes, q.filterStatus), q.searchQuery);
    var view := Sort(filtered, QueryComparator(q));
    TwoStepsSelect(nodes, q);
    ComparatorConsistent(q.sortBy, q.sortOrder);
    SortSorted(filtered, QueryComparator(q));
    if Narrows(q) then Applied(nodes, view) else Applied(view, view)
  }

  /** Stability: nodes that tie on the sort column keep their list order. */
  lemma ApplyFiltersStable(nodes: seq<PNode>, q: Query, k: PNode)
    ensures Ties(ApplyFilters(nodes, q).view, QueryComparator(q), k) == Ties(Selected(nodes, q), QueryComparator(q), k)
  {
    var filtered := SearchStep(StatusStep(nodes, q.filterStatus), q.searchQuery);
    TwoStepsSelect(nodes, q);
    ComparatorConsistent(q.sortBy, q.sortOrder);
    SortStable(filtered, QueryComparator(q), k);
  }

  /** Every node of the result is one the query selects. */
  lemma ViewSelected(nodes: seq<PNode>, q: Query)
    ensures forall i :: 0 <= i < |ApplyFilters(nodes, q).view| ==> Selects(q)(ApplyFilters(nodes, q).view[i])
  {
    var view := ApplyFilters(nodes, q).view;
    forall i | 0 <= i < |view|
      ensures Selects(q)(view[i])
    {
      assert view[i] in multiset(Selected(nodes, q));
      FilterMember(nodes, Selects(q), view[i]);
    }
  }

  /**
   * Applying the same query to its own result changes nothing: the result is
   * already selected and already sorted.
   */
  lemma ReapplyIsIdempotent(nodes: seq<PNode>, q: Query)
    ensures ApplyFilters(ApplyFilters(nodes, q).view, q).view == ApplyFilters(nodes, q).view
  {
    var view := ApplyFilters(nodes, q).view;
    ViewSelected(nodes, q);
    TwoStepsSelect(view, q);
    FilterKeepsAll(view, Selects(q));
    ComparatorConsistent(q.sortBy, q.sortOrder);
    SortIdempotent(view, QueryComparator(q));
  }

  /** The search ignores case: searching for a lower-cased text selects the same nodes. */
  lemma SearchIgnoresCase(text: string, n: PNode)
    ensures SearchMatches(Lower(text), n) <==> SearchMatches(text, n)
  {
    LowerIdempotent(text);
  }

  /** A non-empty search selects a node iff the text occurs in its identity or peer id, ignoring case. */
  lemma SearchIffOccurs(text: string, n: PNode)
    requires text != []
    ensures SearchMatches(text, n) <==>
      (exists i :: OccursAt(Lower(n.identity), Lower(text), i)) || (exists i :: OccursAt(Lower(n.peerId), Lower(text), i))
  {
  }

  /**
   * The caller's array after the call, filtered again with the same query, gives
   * the same result: whether or not the call sorted that array in place.
   */
  lemma SourceRefilters(nodes: seq<PNode>, q: Query)
    ensures ApplyFilters(ApplyFilters(nodes, q).source, q).view == ApplyFilters(nodes, q).view
  {
    if !Narrows(q) {
      ReapplyIsIdempotent(nodes, q);
    }
  }

  /** With no nodes there is nothing to show. */
  lemma ApplyFiltersEmpty(q: Query)
    ensures ApplyFilters([], q) == Applied([], [])
  {
  }
}
