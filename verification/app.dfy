/**
 * The dashboard's main component (src/App.tsx): the handlers that change the
 * table's query, node selection and page, and the refresh countdown that drives
 * polling.
 *
 * The component's copy of the store state is the state of the last notification
 * it received; the model reads the store's state directly.
 */
module App {
  import opened Common
  import opened Node
  import opened Filters
  import opened Store
  import opened FetchPods

  /** The component: the store, the fetch hook, whether the detail modal is open, and the countdown. */
  datatype Main = Main(store: Store, hook: Hook, showModal: bool, timeUntilRefresh: int)

  /** The countdown's starting value, in seconds. */
  const CountdownStart: int := 59

  /** The state the component starts with, subscribed to a new store as listener `id`. */
  function Mount(id: nat): (m: Main)
    ensures m.store.listeners == [id] && m.store.state == Initial
    ensures !Loading(m) && m.timeUntilRefresh == CountdownStart
  {
    Main(Subscribe(Fresh, id), Idle, false, CountdownStart)
  }

  /**
   * The second half of each query handler: filter the state's nodes with the
   * state's query and publish the result. When the query does not narrow, the
   * sort reorders the store's own node array in place, with no notification.
   */
  function Refilter(st: Store): (r: Store)
    ensures r.state.pNodes == ApplyFilters(st.state.pNodes, QueryOf(st.state)).source
    ensures r.state.filteredPNodes == ApplyFilters(st.state.pNodes, QueryOf(st.state)).view
    ensures ViewConsistent(r.state)
    ensures multiset(r.state.pNodes) == multiset(st.state.pNodes)
    ensures r.state == st.state.(pNodes := r.state.pNodes, filteredPNodes := r.state.filteredPNodes)
    ensures r.listeners == st.listeners
    ensures |r.log| == |st.log| + |st.listeners|
  {
    var q := QueryOf(st.state);
    var applied := ApplyFilters(st.state.pNodes, q);
    SourceRefilters(st.state.pNodes, q);
    var sorted := st.(state := st.state.(pNodes := applied.source));
    SetState(sorted, NoChange.(filteredPNodes := Some(applied.view)))
  }

  /** `handleSearch(query)`: set the search text, go to page 1, refilter. */
  function HandleSearch(m: Main, query: string): (r: Main)
    ensures r.store.state.searchQuery == query && r.store.state.currentPage == 1
    ensures r.store.state == m.store.state.(
      searchQuery := query, currentPage := 1,
      pNodes := r.store.state.pNodes, filteredPNodes := r.store.state.filteredPNodes)
    ensures r.store.state.pNodes == ApplyFilters(m.store.state.pNodes, QueryOf(r.store.state)).source
    ensures r.store.state.filteredPNodes == ApplyFilters(m.store.state.pNodes, QueryOf(r.store.state)).view
    ensures ViewConsistent(r.store.state)
    ensures multiset(r.store.state.pNodes) == multiset(m.store.state.pNodes)
    ensures r.hook == m.hook && r.showModal == m.showModal && r.timeUntilRefresh == m.timeUntilRefresh
  {
    var st := SetState(m.store, NoChange.(searchQuery := Some(query), currentPage := Some(1)));
    m.(store := Refilter(st))
  }

  /** `handleFilterStatus(status)`: set the status tab, go to page 1, refilter. */
  function HandleFilterStatus(m: Main, status: FilterStatus): (r: Main)
    ensures r.store.state.filterStatus == status && r.store.state.currentPage == 1
    ensures r.store.state == m.store.state.(
      filterStatus := status, currentPage := 1,
      pNodes := r.store.state.pNodes, filteredPNodes := r.store.state.filteredPNodes)
    ensures r.store.state.pNodes == ApplyFilters(m.store.state.pNodes, QueryOf(r.store.state)).source
    ensures r.store.state.filteredPNodes == ApplyFilters(m.store.state.pNodes, QueryOf(r.store.state)).view
    ensures ViewConsistent(r.store.state)
    ensures multiset(r.store.state.pNodes) == multiset(m.store.state.pNodes)
    ensures r.hook == m.hook && r.showModal == m.showModal && r.timeUntilRefresh == m.timeUntilRefresh
  {
    var st := SetState(m.store, NoChange.(filterStatus := Some(status), currentPage := Some(1)));
    m.(store := Refilter(st))
  }

  /** The direction a click on column `key` selects. */
  function NextOrder(s: StoreState, key: SortKey): (o: SortOrder)
    ensures o == Desc <==> s.sortBy == key && s.sortOrder == Asc
  {
    if s.sortBy == key && s.sortOrder == Asc then Desc else Asc
  }

  /**
   * `handleSort(key)`: sort by `key`, descending when the table was already sorted
   * ascending by `key` and ascending otherwise; go to page 1; refilter.
   */
  function HandleSort(m: Main, key: SortKey): (r: Main)
    ensures r.store.state.sortBy == key && r.store.state.currentPage == 1
    ensures r.store.state.sortOrder == Desc <==> m.store.state.sortBy == key && m.store.state.sortOrder == Asc
    ensures r.store.state == m.store.state.(
      sortBy := key, sortOrder := r.store.state.sortOrder, currentPage := 1,
      pNodes := r.store.state.pNodes, filteredPNodes := r.store.state.filteredPNodes)
    ensures r.store.state.pNodes == ApplyFilters(m.store.state.pNodes, QueryOf(r.store.state)).source
    ensures r.store.state.filteredPNodes == ApplyFilters(m.store.state.pNodes, QueryOf(r.store.state)).view
    ensures ViewConsistent(r.store.state)
    ensures multiset(r.store.state.pNodes) == multiset(m.store.state.pNodes)
    ensures r.hook == m.hook && r.showModal == m.showModal && r.timeUntilRefresh == m.timeUntilRefresh
  {
    var order := NextOrder(m.store.state, key);
    var st := SetState(m.store, NoChange.(sortBy := Some(key), sortOrder := Some(order), currentPage := Some(1)));
    m.(store := Refilter(st))
  }

  /** Clicking the same column repeatedly alternates ascending and descending, starting ascending. */
  lemma SortClicksAlternate(m: Main, key: SortKey)
    ensures HandleSort(m, key).store.state.sortOrder ==
      (if m.store.state.sortBy == key && m.store.state.sortOrder == Asc then Desc else Asc)
    ensures HandleSort(HandleSort(m, key), key).store.state.sortOrder ==
      (if m.store.state.sortBy == key && m.store.state.sortOrder == Asc then Asc else Desc)
  {
  }

  /**
   * The first notification a query handler sends carries the new query but the
   * old table: listeners briefly see a state whose table does not match its query.
   */
  lemma FirstNotificationIsStale(m: Main, query: string)
    requires |m.store.listeners| > 0
    ensures HandleSearch(m, query).store.log[|m.store.log|].state.searchQuery == query
    ensures HandleSearch(m, query).store.log[|m.store.log|].state.filteredPNodes == m.store.state.filteredPNodes
  {
    var st := SetState(m.store, NoChange.(searchQuery := Some(query), currentPage := Some(1)));
    var sorted := st.(state := st.state.(pNodes := ApplyFilters(st.state.pNodes, QueryOf(st.state)).source));
    assert HandleSearch(m, query).store.log[..|sorted.log|] == sorted.log;
    assert sorted.log[|m.store.log|] == Notification(m.store.listeners[0], st.state);
  }

  /** `handleSelectPNode(node)`: nothing for no node; otherwise select it and open the modal. */
  function HandleSelectPNode(m: Main, node: Option<PNode>): (r: Main)
    ensures node.None? ==> r == m
    ensures node.Some? ==> r.showModal && r.store.state == m.store.state.(selectedPNode := node)
  {
    match node
    case None => m
    case Some(_) =>
      m.(store := SetState(m.store, NoChange.(selectedPNode := Some(node))), showModal := true)
  }

  /** The modal's close button: the modal closes, the selection stays. */
  function CloseModal(m: Main): (r: Main)
    ensures !r.showModal && r.store == m.store
  {
    m.(showModal := false)
  }

  /** The pagination control: any page number is stored as given, without clamping. */
  function HandlePageChange(m: Main, page: int): (r: Main)
    ensures r.store.state == m.store.state.(currentPage := page)
  {
    m.(store := SetState(m.store, NoChange.(currentPage := Some(page))))
  }

  /** Changing page never changes which nodes the table holds. */
  lemma PageChangeKeepsView(m: Main, page: int)
    requires ViewConsistent(m.store.state)
    ensures ViewConsistent(HandlePageChange(m, page).store.state)
  {
    assert QueryOf(HandlePageChange(m, page).store.state) == QueryOf(m.store.state);
  }

  // ---------------------------------------------------------------- polling

  /** Either side reports a fetch in flight. */
  predicate Loading(m: Main) {
    m.hook.isLoading || m.store.state.loading
  }

  /** `refetch()`: the first half of a fetch. */
  function Refetch(m: Main): (r: Main)
    ensures Loading(r)
    ensures r.timeUntilRefresh == m.timeUntilRefresh && r.showModal == m.showModal
  {
    var f := Start(Fetch(m.hook, m.store));
    m.(hook := f.hook, store := f.store)
  }

  /**
   * One second of the countdown. While a fetch is in flight there is no timer. At
   * zero or below the tick starts a fetch and stays at zero; otherwise it counts
   * down by one. (The timer's own "not loading" guard was captured when the timer
   * was created, which only happens while nothing loads, so it always holds.)
   */
  function Tick(m: Main): (r: Main)
    ensures Loading(m) ==> r == m
    ensures !Loading(m) && m.timeUntilRefresh <= 0 ==> Loading(r) && r.timeUntilRefresh == 0
    ensures !Loading(m) && m.timeUntilRefresh > 0 ==> r == m.(timeUntilRefresh := m.timeUntilRefresh - 1)
  {
    if Loading(m) then m
    else if m.timeUntilRefresh <= 0 then Refetch(m).(timeUntilRefresh := 0)
    else m.(timeUntilRefresh := m.timeUntilRefresh - 1)
  }

  /** `n` ticks in a row. */
  function Ticks(m: Main, n: nat): Main
    decreases n
  {
    if n == 0 then m else Ticks(Tick(m), n - 1)
  }

  /**
   * The second half of a fetch. A successful fetch sets `lastUpdated`, which
   * resets the countdown; a failed one leaves it where it was.
   */
  function FinishFetch(m: Main, reply: Reply, nowMs: int): (r: Main)
    ensures !Loading(r)
    ensures ErrorMessage(reply).None? ==> r.timeUntilRefresh == CountdownStart
    ensures ErrorMessage(reply).Some? ==> r.timeUntilRefresh == m.timeUntilRefresh
  {
    var f := Finish(Fetch(m.hook, m.store), reply, nowMs);
    m.(hook := f.hook, store := f.store,
       timeUntilRefresh := if ErrorMessage(reply).None? then CountdownStart else m.timeUntilRefresh)
  }

  /** From `n` seconds left and nothing loading, `n` ticks reach zero without fetching. */
  lemma {:induction false} CountdownReachesZero(m: Main, n: nat)
    requires !Loading(m) && m.timeUntilRefresh == n
    ensures Ticks(m, n) == m.(timeUntilRefresh := 0)
    decreases n
  {
    if n > 0 {
      CountdownReachesZero(Tick(m), n - 1);
    }
  }

  /**
   * After a successful fetch the next one starts on the sixtieth tick: 59 ticks
   * count down, and the next starts the fetch.
   */
  lemma PollEverySixtyTicks(m: Main, reply: Reply, nowMs: int)
    requires reply.Delivered? && reply.pods.Some?
    ensures !Loading(Ticks(FinishFetch(m, reply, nowMs), CountdownStart as nat))
    ensures Loading(Ticks(FinishFetch(m, reply, nowMs), CountdownStart as nat + 1))
  {
    var done := FinishFetch(m, reply, nowMs);
    CountdownReachesZero(done, CountdownStart as nat);
    TicksSplit(done, CountdownStart as nat, 1);
  }

  /** Ticking `a` then `b` times is ticking `a + b` times. */
  lemma {:induction false} TicksSplit(m: Main, a: nat, b: nat)
    ensures Ticks(m, a + b) == Ticks(Ticks(m, a), b)
    decreases a
  {
    if a > 0 {
      TicksSplit(Tick(m), a - 1, b);
    }
  }

  /** After a failed fetch the countdown is still at zero, so the very next tick fetches again. */
  lemma FailureRetriesNextTick(m: Main, reply: Reply, nowMs: int)
    requires m.timeUntilRefresh == 0
    requires !(reply.Delivered? && reply.pods.Some?)
    ensures Loading(Tick(FinishFetch(m, reply, nowMs)))
  {
  }

  /** The refresh button: starts a fetch even when one is already in flight. */
  function HandleRefresh(m: Main): (r: Main)
    ensures Loading(r) && r.hook == Hook(true, None)
    ensures |r.store.log| == |m.store.log| + |m.store.listeners|
  {
    Refetch(m)
  }
}
