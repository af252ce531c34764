/**
 * The dashboard's single store (src/store/pNodeStore.ts): one state record, a
 * list of listeners, and `setState`, which merges a partial update into the state
 * and then calls every listener, in subscription order, with the new state.
 *
 * Listeners are identified by numbers; a call of a listener is recorded in the
 * store's `log` as a notification carrying the state it was given.
 */
module Store {
  import opened Common
  import opened Node
  import opened Filters

  /** `PNodeStoreState`; nullable fields are options, `lastUpdated` is a millisecond timestamp. */
  datatype StoreState = StoreState(
    pNodes: seq<PNode>,
    filteredPNodes: seq<PNode>,
    loading: bool,
    error: Option<string>,
    lastUpdated: Option<int>,
    selectedPNode: Option<PNode>,
    searchQuery: string,
    sortBy: SortKey,
    sortOrder: SortOrder,
    filterStatus: FilterStatus,
    currentPage: int,
    itemsPerPage: int)

  /** The state a new store starts in. */
  const Initial: StoreState := StoreState(
    [], [], false, None, None, None, "", ByIdentity, Asc, All, 1, 10)

  /**
   * `Partial<PNodeStoreState>`: `None` leaves a field alone; `Some(v)` sets it to
   * `v` (for a nullable field, `Some(None)` sets it to null).
   */
  datatype Update = Update(
    pNodes: Option<seq<PNode>>,
    filteredPNodes: Option<seq<PNode>>,
    loading: Option<bool>,
    error: Option<Option<string>>,
    lastUpdated: Option<Option<int>>,
    selectedPNode: Option<Option<PNode>>,
    searchQuery: Option<string>,
    sortBy: Option<SortKey>,
    sortOrder: Option<SortOrder>,
    filterStatus: Option<FilterStatus>,
    currentPage: Option<int>,
    itemsPerPage: Option<int>)

  /** The empty update `{}`. */
  const NoChange: Update := Update(None, None, None, None, None, None, None, None, None, None, None, None)

  /** `{ ...state, ...updates }`: every field the update names takes its value, the rest stay. */
  function Merge(s: StoreState, u: Update): (r: StoreState)
    ensures u.pNodes.Some? ==> r.pNodes == u.pNodes.value
    ensures u.pNodes.None? ==> r.pNodes == s.pNodes
    ensures u.filteredPNodes.Some? ==> r.filteredPNodes == u.filteredPNodes.value
    ensures u.filteredPNodes.None? ==> r.filteredPNodes == s.filteredPNodes
    ensures u.loading.Some? ==> r.loading == u.loading.value
    ensures u.loading.None? ==> r.loading == s.loading
    ensures u.error.Some? ==> r.error == u.error.value
    ensures u.error.None? ==> r.error == s.error
    ensures u.lastUpdated.Some? ==> r.lastUpdated == u.lastUpdated.value
    ensures u.lastUpdated.None? ==> r.lastUpdated == s.lastUpdated
    ensures u.selectedPNode.Some? ==> r.selectedPNode == u.selectedPNode.value
    ensures u.selectedPNode.None? ==> r.selectedPNode == s.selectedPNode
    ensures u.searchQuery.Some? ==> r.searchQuery == u.searchQuery.value
    ensures u.searchQuery.None? ==> r.searchQuery == s.searchQuery
    ensures u.sortBy.Some? ==> r.sortBy == u.sortBy.value
    ensures u.sortBy.None? ==> r.sortBy == s.sortBy
    ensures u.sortOrder.Some? ==> r.sortOrder == u.sortOrder.value
    ensures u.sortOrder.None? ==> r.sortOrder == s.sortOrder
    ensures u.filterStatus.Some? ==> r.filterStatus == u.filterStatus.value
    ensures u.filterStatus.None? ==> r.filterStatus == s.filterStatus
    ensures u.currentPage.Some? ==> r.currentPage == u.currentPage.value
    ensures u.currentPage.None? ==> r.currentPage == s.currentPage
    ensures u.itemsPerPage.Some? ==> r.itemsPerPage == u.itemsPerPage.value
    ensures u.itemsPerPage.None? ==> r.itemsPerPage == s.itemsPerPage
  {
    StoreState(
      u.pNodes.GetOr(s.pNodes),
      u.filteredPNodes.GetOr(s.filteredPNodes),
      u.loading.GetOr(s.loading),
      u.error.GetOr(s.error),
      u.lastUpdated.GetOr(s.lastUpdated),
      u.selectedPNode.GetOr(s.selectedPNode),
      u.searchQuery.GetOr(s.searchQuery),
      u.sortBy.GetOr(s.sortBy),
      u.sortOrder.GetOr(s.sortOrder),
      u.filterStatus.GetOr(s.filterStatus),
      u.currentPage.GetOr(s.currentPage),
      u.itemsPerPage.GetOr(s.itemsPerPage))
  }

  /** The later of two options: `b` when it is set, else `a`. */
  function Later<T>(a: Option<T>, b: Option<T>): Option<T> {
    if b.Some? then b else a
  }

  /** The single update with the effect of `u` followed by `v`. */
  function Then(u: Update, v: Update): Update {
    Update(
      Later(u.pNodes, v.pNodes),
      Later(u.filteredPNodes, v.filteredPNodes),
      Later(u.loading, v.loading),
      Later(u.error, v.error),
      Later(u.lastUpdated, v.lastUpdated),
      Later(u.selectedPNode, v.selectedPNode),
      Later(u.searchQuery, v.searchQuery),
      Later(u.sortBy, v.sortBy),
      Later(u.sortOrder, v.sortOrder),
      Later(u.filterStatus, v.filterStatus),
      Later(u.currentPage, v.currentPage),
      Later(u.itemsPerPage, v.itemsPerPage))
  }

  /** Merging the empty update changes nothing. */
  lemma MergeNoChange(s: StoreState)
    ensures Merge(s, NoChange) == s
  {
  }

  /** Two merges in a row are one merge in which the later update's fields win. */
  lemma MergeThen(s: StoreState, u: Update, v: Update)
    ensures Merge(Merge(s, u), v) == Merge(s, Then(u, v))
  {
  }

  /** Merging the same update twice is merging it once. */
  lemma MergeIdempotent(s: StoreState, u: Update)
    ensures Merge(Merge(s, u), u) == Merge(s, u)
  {
    MergeThen(s, u, u);
    assert Then(u, u) == u;
  }

  /** One call of a listener, with the state it received. */
  datatype Notification = Notification(listener: nat, state: StoreState)

  datatype Store = Store(state: StoreState, listeners: seq<nat>, log: seq<Notification>)

  /** `new PNodeStore()`: the initial state, no listeners, nothing notified. */
  const Fresh: Store := Store(Initial, [], [])

  /** The notifications `setState` sends: one per listener, in order, all with state `s`. */
  function Broadcast(listeners: seq<nat>, s: StoreState): (r: seq<Notification>)
    ensures |r| == |listeners|
    ensures forall i :: 0 <= i < |r| ==> r[i] == Notification(listeners[i], s)
  {
    if |listeners| == 0 then []
    else [Notification(listeners[0], s)] + Broadcast(listeners[1..], s)
  }

  /** `setState(updates)`. */
  function SetState(st: Store, u: Update): (r: Store)
    ensures r.state == Merge(st.state, u)
    ensures r.listeners == st.listeners
    ensures |r.log| == |st.log| + |st.listeners|
    ensures r.log[..|st.log|] == st.log
    ensures forall i :: 0 <= i < |st.listeners| ==>
      r.log[|st.log| + i] == Notification(st.listeners[i], Merge(st.state, u))
  {
    var s := Merge(st.state, u);
    Store(s, st.listeners, st.log + Broadcast(st.listeners, s))
  }

  /** `getState()`. */
  function GetState(st: Store): StoreState {
    st.state
  }

  /**
   * `getState()` reads back what the last `setState` merged in, and subscribing or
   * unsubscribing does not change it.
   */
  lemma GetAfterSet(st: Store, u: Update, id: nat)
    ensures GetState(SetState(st, u)) == Merge(GetState(st), u)
    ensures GetState(Subscribe(st, id)) == GetState(st)
    ensures GetState(Unsubscribe(st, id)) == GetState(st)
  {
  }

  /** `subscribe(fn)`: the listener goes to the end of the list; nothing is notified. */
  function Subscribe(st: Store, id: nat): (r: Store)
    ensures r.listeners == st.listeners + [id]
    ensures r.state == st.state && r.log == st.log
  {
    st.(listeners := st.listeners + [id])
  }

  function IsNot(id: nat): nat -> bool {
    (l: nat) => l != id
  }

  /** The function `subscribe` returns: drops every registration of the listener. */
  function Unsubscribe(st: Store, id: nat): (r: Store)
    ensures id !in r.listeners
    ensures forall l :: l in st.listeners && l != id ==> l in r.listeners
    ensures forall l :: l in r.listeners ==> l in st.listeners
    ensures forall l :: multiset(r.listeners)[l] == if l == id then 0 else multiset(st.listeners)[l]
    ensures id !in st.listeners ==> r.listeners == st.listeners
    ensures r.state == st.state && r.log == st.log
  {
    var kept := Filter(st.listeners, IsNot(id));
    FilterCounts(st.listeners, IsNot(id));
    assert forall l :: l in kept <==> l in multiset(kept);
    assert id !in st.listeners ==> kept == st.listeners by {
      if id !in st.listeners {
        FilterKeepsAll(st.listeners, IsNot(id));
      }
    }
    st.(listeners := kept)
  }

  /**
   * The listeners left keep their order: unsubscribing from two lists joined is
   * unsubscribing from each and joining the results, and one registration stays
   * exactly when it is another listener's.
   */
  lemma UnsubscribeKeepsOrder(st: Store, id: nat, a: seq<nat>, b: seq<nat>, l: nat)
    ensures Unsubscribe(st.(listeners := a + b), id).listeners
      == Unsubscribe(st.(listeners := a), id).listeners + Unsubscribe(st.(listeners := b), id).listeners
    ensures Unsubscribe(st.(listeners := [l]), id).listeners == if l == id then [] else [l]
  {
    FilterAppend(a, b, IsNot(id));
    assert [l][..0] == [];
  }

  /** Unsubscribing a listener that was subscribed once, last, restores the listener list. */
  lemma SubscribeUnsubscribe(st: Store, id: nat)
    requires id !in st.listeners
    ensures Unsubscribe(Subscribe(st, id), id) == st
  {
    FilterAppend(st.listeners, [id], IsNot(id));
    FilterKeepsAll(st.listeners, IsNot(id));
    assert Filter([id], IsNot(id)) == [] by {
      assert [id][..0] == [];
    }
  }

  /** The query the state's search, status tab and sort fields describe. */
  function QueryOf(s: StoreState): Query {
    Query(s.filterStatus, s.searchQuery, s.sortBy, s.sortOrder)
  }

  /** The table shows what the state's query selects from the state's nodes, in its order. */
  predicate ViewConsistent(s: StoreState) {
    s.filteredPNodes == ApplyFilters(s.pNodes, QueryOf(s)).view
  }

  /** A new store's empty table agrees with its empty node list. */
  lemma InitialViewConsistent()
    ensures ViewConsistent(Initial)
  {
    ApplyFiltersEmpty(QueryOf(Initial));
  }
}
