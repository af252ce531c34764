/**
 * `useFetchPods`'s `fetchPods` (src/hooks/useFetchPods.ts): mark the dashboard as
 * loading, ask the node RPC endpoint for its pods, turn them into nodes, filter
 * and sort them with the store's current query, and publish them; on any failure
 * publish an error message instead and keep the previous nodes.
 *
 * The call is split at its `await`: `Start` is everything before the request, and
 * `Finish` everything after, given what the request produced.
 */
module FetchPods {
  import opened Common
  import opened Node
  import opened Filters
  import opened Store
  import opened PodTransform

  /** The hook's own `isLoading` and `error` state. */
  datatype Hook = Hook(isLoading: bool, error: Option<string>)

  const Idle: Hook := Hook(false, None)

  /**
   * What the request produced: a response whose `pods` field is an array, or one
   * that is not (`None`); or a thrown value, an `Error` with its message or
   * something else (`None`).
   */
  datatype Reply = Delivered(pods: Option<seq<Pod>>) | Thrown(message: Option<string>)

  const InvalidResponse: string := "Invalid response format: pods array not found"
  const FetchFailed: string := "Failed to fetch pods"

  /** The hook and the store together. */
  datatype Fetch = Fetch(hook: Hook, store: Store)

  /** Before the request: the hook is loading with no error, and the store says loading. */
  function Start(f: Fetch): (r: Fetch)
    ensures r.hook == Hook(true, None)
    ensures r.store.state.loading
    ensures r.store.state == f.store.state.(loading := true)
  {
    Fetch(Hook(true, None), SetState(f.store, NoChange.(loading := Some(true))))
  }

  /** The message a failed request ends with. */
  function ErrorMessage(reply: Reply): (m: Option<string>)
    ensures m.None? <==> reply.Delivered? && reply.pods.Some?
    ensures reply == Delivered(None) ==> m == Some(InvalidResponse)
    ensures reply.Thrown? && reply.message.Some? ==> m == reply.message
    ensures reply == Thrown(None) ==> m == Some(FetchFailed)
  {
    match reply
    case Delivered(None) => Some(InvalidResponse)
    case Delivered(Some(_)) => None
    case Thrown(m) => Some(m.GetOr(FetchFailed))
  }

  /** The store update a successful request publishes. */
  function Published(nodes: seq<PNode>, q: Query, nowMs: int): Update {
    var applied := ApplyFilters(nodes, q);
    NoChange.(
      pNodes := Some(applied.source),
      filteredPNodes := Some(applied.view),
      loading := Some(false),
      lastUpdated := Some(Some(nowMs)),
      error := Some(None))
  }

  /** After the request, at time `nowMs` in milliseconds. */
  function Finish(f: Fetch, reply: Reply, nowMs: int): (r: Fetch)
    ensures !r.hook.isLoading && !r.store.state.loading
    ensures r.store.listeners == f.store.listeners
    ensures QueryOf(r.store.state) == QueryOf(f.store.state)
    ensures r.store.state.currentPage == f.store.state.currentPage
    ensures r.store.state.selectedPNode == f.store.state.selectedPNode
    ensures r.store.state.itemsPerPage == f.store.state.itemsPerPage
    ensures r.store.state.error == ErrorMessage(reply)
    ensures ErrorMessage(reply).Some? ==>
      r.hook.error == ErrorMessage(reply)
      && r.store.state.pNodes == f.store.state.pNodes
      && r.store.state.filteredPNodes == f.store.state.filteredPNodes
      && r.store.state.lastUpdated == f.store.state.lastUpdated
    ensures reply.Delivered? && reply.pods.Some? ==>
      r.hook.error == f.hook.error
      && r.store.state.pNodes == ApplyFilters(TransformPods(reply.pods.value, nowMs / 1000), QueryOf(f.store.state)).source
      && r.store.state.filteredPNodes == ApplyFilters(TransformPods(reply.pods.value, nowMs / 1000), QueryOf(f.store.state)).view
      && multiset(r.store.state.pNodes) == multiset(TransformPods(reply.pods.value, nowMs / 1000))
      && r.store.state.lastUpdated == Some(nowMs)
      && ViewConsistent(r.store.state)
  {
    match ErrorMessage(reply)
    case Some(msg) =>
      Fetch(Hook(false, Some(msg)),
        SetState(f.store, NoChange.(loading := Some(false), error := Some(Some(msg)))))
    case None =>
      var nodes := TransformPods(reply.pods.value, nowMs / 1000);
      var q := QueryOf(f.store.state);
      SourceRefilters(nodes, q);
      Fetch(f.hook.(isLoading := false), SetState(f.store, Published(nodes, q, nowMs)))
  }

  /** A failed fetch leaves the published nodes as they were. */
  lemma FailureKeepsView(f: Fetch, reply: Reply, nowMs: int)
    requires ViewConsistent(f.store.state)
    requires !(reply.Delivered? && reply.pods.Some?)
    ensures ViewConsistent(Finish(f, reply, nowMs).store.state)
  {
  }

  /** A whole fetch, start to finish, from a state where the table agrees with the nodes. */
  lemma FetchKeepsViewConsistent(f: Fetch, reply: Reply, nowMs: int)
    requires ViewConsistent(f.store.state)
    ensures ViewConsistent(Finish(Start(f), reply, nowMs).store.state)
  {
  }
}
