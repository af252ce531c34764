# pNode analytics dashboard — a Dafny model of its data pipeline

The dashboard shows the storage nodes ("pNodes") of the Xandeum network. This
project models how it turns raw node telemetry into the rows the user sees:

- **Pod feed** (`PodTransform`): a `get-pods-with-stats` record becomes a `PNode`.
  Status, uptime percentage, performance and reputation are computed from the
  record. The list is then reduced to one node per public key, keeping the
  latest report.
- **On-chain feed**: program accounts are decoded (`Decoder`) against a
  fixed Borsh layout (`Borsh`). The decoded records are turned into nodes
  (`PNodeTransform`), and the two steps are chained (`FetchPnodes`).
- **Query engine**: a status filter, then a case-insensitive search, then a
  stable sort on a chosen key. This is split over `Ordering` (the comparator),
  `StableSort` (a stable insertion sort with its proofs) and `Filters` (the
  whole `applyFilters`, including sorting the input array in place when nothing
  narrows the list).
- **Store and view controller**: `Store` is the shallow-merging store with
  listeners as ids and notifications as an event log. `FetchPods` holds the
  fetch transitions. `App` holds the handlers, the refresh countdown and the
  modal. `Pagination` and `Stats` hold the derived values.
- **Presentation classifiers**: `Badges` (badge kind and colours) and `Format`
  (relative time).

Shared vocabulary lives in `Common` (`Option`, `Byte`, `Filter`), `Text`
(lower-casing, substring search, collation, decimal rendering) and `Node` (the
`PNode` record, status, sort keys, the query).

Clocks are parameters: `now` in seconds for the pod feed, `nowMs` in
milliseconds elsewhere. Scores are `real`. JavaScript's truthiness,
`Buffer.slice` clamping, `new BN(String(v || 0))` and
`Array.prototype.slice` with negative indices are written out explicitly.

## Model

| member | source | states |
|---|---|---|
| PodTransform.CalculateStatus | src/utils/podTransform.ts:20-27 | active exactly when the node was seen less than 300 seconds before `now` (strict); otherwise inactive, never syncing |
| PodTransform.UptimePercentage | src/utils/podTransform.ts:34-48 | zero uptime gives 0; non-negative uptime gives a value in [0,100]; a day or more gives 100; below a day it is the share of a day as a percentage |
| PodTransform.StorageScore | src/utils/podTransform.ts:84-92 | the storage term lies in [0,100], is 100 exactly at 50 % usage, and is 0 outside the open interval (0,100) |
| PodTransform.UptimeScore | src/utils/podTransform.ts:95-99 | for a positive uptime the uptime term lies in (0,100] |
| PodTransform.RecencyScore | src/utils/podTransform.ts:102-106 | the recency term lies in [0,100]; it is 100 for a node seen now or in the future and 0 from 3000 seconds on |
| PodTransform.PerformanceTally | src/utils/podTransform.ts:79-112 | the recency factor always counts, so there is at least one factor; storage counts whenever its percentage is defined, uptime when truthy, public when true; the summed score is at most 100 per factor |
| PodTransform.MeanBounds | src/utils/podTransform.ts:114 | a score of at most 100 per factor, averaged over at least one factor, lies in [0,100] |
| PodTransform.Performance | src/utils/podTransform.ts:79-115 | performance lies in [0,100] for every pod and every `now` |
| PodTransform.StorageFactorCountsWhenDefined | src/utils/podTransform.ts:84-92 | a storage percentage outside (0,100) adds a factor but no score, so it lowers a positive performance |
| PodTransform.PublicBonusIsAFactor | src/utils/podTransform.ts:109-112 | being public adds exactly 100 to the score and one factor, not a flat bonus |
| PodTransform.WorkedExample | src/utils/podTransform.ts:84-114 | a public pod seen 60 s ago with uptime 43200 s and 50 % usage is active, has uptime 50 and performance (100+50+98+100)/4 = 87 |
| PodTransform.UptimePoints | src/utils/podTransform.ts:152-156 | the uptime points lie in [0,10] and are 0 when uptime is absent or zero |
| PodTransform.StoragePoints | src/utils/podTransform.ts:159-163 | the storage points are at most 5, and not negative when the committed storage is absent or non-negative |
| PodTransform.RecencyPoints | src/utils/podTransform.ts:166-170 | the recency points are never negative, at most 5 for a past sighting, and 0 from ten hours on |
| PodTransform.Reputation | src/utils/podTransform.ts:148-183 | reputation is at most 10, non-negative when the committed storage is, and exactly 10 when the uncapped sum reaches 10 |
| PodTransform.ReputationSum | src/utils/podTransform.ts:148-181 | the uncapped sum is non-negative when the committed storage is, at most 10 + 5 + 5 + 2 + 1 = 23 for a past sighting, and at most 6 for a pod that is not public, has no uptime and was last seen ten hours ago or more |
| PodTransform.JsRound | src/utils/podTransform.ts:208-209 | `Math.round` lands within half a unit of its argument, rounding halves up |
| PodTransform.OneDecimal | src/utils/podTransform.ts:208-209 | the result is a whole number of tenths in (x − 0.05, x + 0.05]: the nearest tenth, a half rounding up |
| PodTransform.OneDecimalUnique | src/utils/podTransform.ts:208-209 | only one whole number of tenths lies in (x − 0.05, x + 0.05], so the two facts above pin the rounding down completely |
| PodTransform.RoundedGB | src/utils/podTransform.ts:192-209 | the displayed GB is a whole number of tenths in (g − 0.05, g + 0.05] for g = bytes / 2^30 |
| PodTransform.TransformPod | src/utils/podTransform.ts:188-216 | identity is the pubkey or "unknown"; peer id is the address or else the identity; version defaults to "unknown"; slots are 0; heartbeat is seconds × 1000; status is the 300-second window; uptime, performance and reputation are the three scores of the pod; storage used and capacity are the byte counts (0 when absent) in GB rounded to one decimal |
| PodTransform.KeysOf | src/utils/podTransform.ts:229-243 | the key list has one entry per pod, the pod's own key |
| PodTransform.FirstAppearances | src/utils/podTransform.ts:229-246 | the keys in order of first appearance hold no repeats and exactly the keys of the input |
| PodTransform.IndexOfKey | src/utils/podTransform.ts:233-241 | the map lookup finds the held pod with that key, or reports that none is held |
| PodTransform.HoldStep | src/utils/podTransform.ts:229-243 | one loop step keeps the held keys in first-appearance order and each held pod the latest of its key, ties keeping the earlier |
| PodTransform.Dedup | src/utils/podTransform.ts:229-243 | the held pods have exactly the distinct keys in first-appearance order, and each is the latest report of its key |
| PodTransform.TransformPods | src/utils/podTransform.ts:222-247 | one node per distinct usable pubkey, in first-appearance order, each built from the latest report of that key |
| PodTransform.IdentitiesUnique | src/utils/podTransform.ts:222-247 | no two nodes of one refresh share an identity |
| PodTransform.KeyedKeys | src/utils/podTransform.ts:224-226 | a key survives the first filter exactly when some pod has it as a present, non-blank pubkey |
| PodTransform.OneNodePerKey | src/utils/podTransform.ts:222-247 | a key yields exactly one node if some pod carries it as a usable pubkey, and none otherwise |
| PodTransform.LaterReportWins | src/utils/podTransform.ts:235-240 | of two reports of one key, the one seen later is kept |
| PodTransform.TieKeepsFirst | src/utils/podTransform.ts:235-240 | of two reports of one key with the same timestamp, the first is kept |
| Text.Lower | src/utils/filters.ts:24-26 | lower-casing keeps the length and maps each character on its own |
| Text.LowerIdempotent | src/utils/filters.ts:24-26 | lower-casing twice is lower-casing once |
| Text.Contains | src/utils/filters.ts:26 | `includes` holds exactly when the text occurs at some position |
| Text.CollateZeroIffEqual | src/utils/filters.ts:35 | the string order reports a tie exactly for equal strings |
| Text.CollateAntisymmetric | src/utils/filters.ts:35 | swapping the strings negates the comparison |
| Text.CollateTransitive | src/utils/filters.ts:35 | the string order is transitive |
| Text.NatToStringRoundTrip | src/utils/format.ts:8-10 | the decimal text of a natural number reads back as that number |
| Text.IntToStringRoundTrip | src/utils/format.ts:8-10 | the decimal text of an integer, sign included, reads back as that integer |
| Ordering.CompareNumbers | src/utils/filters.ts:36-40 | the numeric comparison is negative, zero or positive exactly as a < b, a = b or a > b |
| Ordering.CompareText | src/utils/filters.ts:35 | two text keys tie exactly when their lower-cased forms are equal |
| Ordering.Compare | src/utils/filters.ts:30-41 | `desc` is the negated ascending comparison |
| Ordering.TieIndependentOfOrder | src/utils/filters.ts:41 | a tie in one direction is a tie in the other, because −0 counts as 0 |
| Ordering.TextTieIffSameLowercase | src/utils/filters.ts:31-35 | on identity, peer id, status or version, two nodes tie exactly when the lower-cased fields agree |
| Ordering.CompareAntisymmetric | src/utils/filters.ts:30-42 | the comparator is antisymmetric in both directions |
| Ordering.CompareTransitive | src/utils/filters.ts:30-42 | the comparator is transitive in both directions |
| Ordering.CompareStrictTransitive | src/utils/filters.ts:30-42 | strictly before then not after is strictly before |
| Ordering.TieTransitive | src/utils/filters.ts:30-42 | ties form an equivalence |
| StableSort.InsertPermutes | src/utils/filters.ts:30-42 | inserting adds exactly the inserted node |
| StableSort.Sort | src/utils/filters.ts:30-42 | sorting returns a permutation of its input: same length, and every node as many times as before |
| StableSort.SortSorted | src/utils/filters.ts:30-42 | under a consistent comparator the result is in order |
| StableSort.InsertTies | src/utils/filters.ts:30-42 | inserting appends the new node after the nodes it ties with |
| StableSort.SortStable | src/utils/filters.ts:30-42 | nodes that tie keep their input order (the stability section 23.1.3.30 of ECMA-262 requires) |
| StableSort.SortIdempotent | src/utils/filters.ts:30-42 | sorting a sorted list changes nothing |
| Filters.ComparatorConsistent | src/utils/filters.ts:30-42 | the comparator is antisymmetric and transitive for every key and direction |
| Filters.TwoStepsSelect | src/utils/filters.ts:19-28 | filtering by status and then by search keeps exactly the nodes that pass both tests |
| Filters.StatusStep | src/utils/filters.ts:19-21 | the status step never lengthens the list, and every node it keeps has the tab's status (any status for "all") |
| Filters.SearchStep | src/utils/filters.ts:23-28 | the search step never lengthens the list, and every node it keeps matches the search (any node for an empty search) |
| Filters.StepsAreFilters | src/utils/filters.ts:19-28 | skipping a step for the "all" tab or an empty search gives the same list, in the same order, as running it; each step keeps every copy of a passing node and no copy of any other |
| Filters.ApplyFilters | src/utils/filters.ts:3-45 | the view is sorted and is a permutation of the selected nodes; with no narrowing it is the input array itself, sorted in place |
| Filters.ApplyFiltersStable | src/utils/filters.ts:30-42 | selected nodes that tie keep their input order in the view |
| Filters.ViewSelected | src/utils/filters.ts:19-28 | every node in the view passes the status and search tests |
| Filters.ReapplyIsIdempotent | src/utils/filters.ts:3-45 | filtering the view again with the same query returns it unchanged |
| Filters.SearchIgnoresCase | src/utils/filters.ts:23-28 | the search does not depend on the query's case |
| Filters.SearchIffOccurs | src/utils/filters.ts:23-28 | a non-empty query keeps a node exactly when it occurs in the lower-cased identity or peer id |
| Filters.SourceRefilters | src/utils/filters.ts:17-44 | the array written back (the input, sorted in place when nothing narrows) filters to the same view |
| Filters.ApplyFiltersEmpty | src/utils/filters.ts:3-45 | an empty list stays empty |
| Store.Merge | src/store/pNodeStore.ts:23-24 | each field present in the update is replaced and every other field is kept |
| Store.MergeNoChange | src/store/pNodeStore.ts:23-24 | an empty update leaves the state as it was |
| Store.MergeThen | src/store/pNodeStore.ts:23-24 | two merges in a row are one merge of the later-wins combination |
| Store.MergeIdempotent | src/store/pNodeStore.ts:23-24 | merging the same update twice is merging it once |
| Store.Broadcast | src/store/pNodeStore.ts:25 | one notification per listener, in subscription order, each carrying the new state |
| Store.SetState | src/store/pNodeStore.ts:23-26 | the state becomes the merge, the listeners stay, and every listener is notified once with the new state, even for an empty update |
| Store.Subscribe | src/store/pNodeStore.ts:28-29 | the listener is appended and nothing else changes |
| Store.Unsubscribe | src/store/pNodeStore.ts:30-32 | every registration of that listener is removed, every other listener keeps its number of registrations, and unsubscribing an unknown listener changes nothing |
| Store.UnsubscribeKeepsOrder | src/store/pNodeStore.ts:30-32 | unsubscribing works registration by registration, so the remaining listeners keep their order |
| Store.SubscribeUnsubscribe | src/store/pNodeStore.ts:28-33 | subscribing a new listener and then unsubscribing it restores the store |
| Store.GetAfterSet | src/store/pNodeStore.ts:23-37 | `getState` returns the merge the last `setState` made; subscribing and unsubscribing leave it as it was |
| Store.InitialViewConsistent | src/store/pNodeStore.ts:6-19 | the initial state's filtered list is the query applied to its node list |
| FetchPods.Start | src/hooks/useFetchPods.ts:27-30 | starting a fetch sets both loading flags and clears the hook error, changing nothing else in the store |
| FetchPods.ErrorMessage | src/hooks/useFetchPods.ts:35-37 | a reply without a pods array is an error with the invalid-format message; a thrown error keeps its message or gets the default |
| FetchPods.Finish | src/hooks/useFetchPods.ts:40-69 | success stores exactly what `applyFilters` under the current query leaves in the transformed list and returns as the view, and stamps the time; failure keeps both lists and records the error; loading ends and query, page and selection are untouched |
| FetchPods.FailureKeepsView | src/hooks/useFetchPods.ts:59-69 | a failed fetch keeps a consistent filtered view consistent |
| FetchPods.FetchKeepsViewConsistent | src/hooks/useFetchPods.ts:25-69 | a whole fetch, started and finished, keeps the filtered view consistent |
| App.Mount | src/App.tsx:26-46 | the dashboard subscribes once, starts from the initial state and counts down from 59 |
| App.Refilter | src/App.tsx:82-88 | the node list and the view become exactly what `applyFilters` on the stored nodes and query leaves and returns; only those two lists change |
| App.HandleSearch | src/App.tsx:79-89 | the query is stored, the page reset to 1, and both lists become exactly what `applyFilters` under the new query leaves and returns |
| App.HandleFilterStatus | src/App.tsx:91-101 | the status filter is stored, the page reset to 1, and both lists become exactly what `applyFilters` under the new query leaves and returns |
| App.NextOrder | src/App.tsx:105-108 | descending exactly when the same key is re-selected while ascending |
| App.HandleSort | src/App.tsx:103-117 | the key is stored with the toggled order, the page reset to 1, and both lists become exactly what `applyFilters` under the new query leaves and returns |
| App.SortClicksAlternate | src/App.tsx:103-117 | clicking one key repeatedly alternates ascending and descending |
| App.FirstNotificationIsStale | src/App.tsx:79-89 | listeners are first told of the new query while the filtered list is still the old one |
| App.HandleSelectPNode | src/App.tsx:123-127 | no node changes nothing; a node is stored as the selection and opens the modal |
| App.CloseModal | src/App.tsx:255 | closing the modal leaves the store alone |
| App.HandlePageChange | src/App.tsx:231-233 | only the current page is written |
| App.PageChangeKeepsView | src/App.tsx:231-233 | a page change keeps a consistent view consistent without recomputing it |
| App.Refetch | src/App.tsx:57-58 | the countdown's refetch starts loading and leaves countdown and modal alone |
| App.Tick | src/App.tsx:49-67 | no tick while loading; a positive counter goes down by one; at zero or below it stays at 0 and refetches |
| App.FinishFetch | src/App.tsx:69-77 | loading ends; after a success, which stamps `lastUpdated`, the counter goes back to 59, and after a failure it is left where it was |
| App.CountdownReachesZero | src/App.tsx:53-64 | from a counter of n without loading, n ticks reach 0 |
| App.PollEverySixtyTicks | src/App.tsx:53-77 | after a successful fetch the next fetch starts on the 60th tick, not before |
| App.TicksSplit | src/App.tsx:53-64 | a + b ticks are a ticks and then b ticks |
| App.FailureRetriesNextTick | src/App.tsx:53-77 | a failed fetch at 0 starts again on the next tick |
| App.HandleRefresh | src/App.tsx:119-121 | a manual refresh starts a fetch and notifies every listener once |
| Stats.Mean | src/App.tsx:132-145 | no nodes gives no mean (shown as "0"); otherwise the mean times the count is the sum |
| Stats.Sum | src/App.tsx:135 | non-negative terms give a non-negative sum |
| Stats.ComputeStats | src/App.tsx:129-146 | total is the node count, active the count of active nodes, and the averages are the means |
| Stats.SumRemove | src/App.tsx:135 | a sum is one term plus the sum of the rest |
| Stats.SumPermutation | src/App.tsx:135 | the sum does not depend on the order of the nodes |
| Stats.SumBounds | src/App.tsx:135 | terms within [lo,hi] sum to within n·lo and n·hi |
| Stats.MeanBounds | src/App.tsx:132-145 | the mean of values within [lo,hi] lies within [lo,hi] |
| Stats.StatsIgnoreOrder | src/App.tsx:129-146 | the stats depend only on the multiset of nodes |
| Stats.SortKeepsStats | src/App.tsx:103-146 | sorting does not change the stats |
| Pagination.SliceIndex | src/App.tsx:150 | a slice index is clamped to the list, and a negative one counts from the end |
| Pagination.Slice | src/App.tsx:150 | an in-range slice is the plain subsequence |
| Pagination.Page | src/App.tsx:148-150 | a page holds at most `itemsPerPage` nodes |
| Pagination.TotalPages | src/App.tsx:151-153 | the page count is the ceiling of length over page size; a page size of 0 gives no finite count |
| Pagination.PageIsSlice | src/App.tsx:148-150 | page n is the nodes from (n−1)·size to n·size, clipped to the list |
| Pagination.FirstPagesPrefix | src/App.tsx:148-150 | the first n pages together are the first n·size nodes |
| Pagination.PagesCoverList | src/App.tsx:148-153 | pages 1 to `totalPages` together are exactly the list |
| Pagination.PastLastPageIsEmpty | src/App.tsx:148-150 | a page past the last is empty, with no clamp back |
| Pagination.NegativePageCountsFromEnd | src/App.tsx:148-150 | page 0 is empty and page −1 shows nodes 10 to 19 |
| Borsh.LittleEndian | src/services/pnodeDecoder.ts:77-83 | the value of w little-endian bytes is below 256^w |
| Borsh.LittleEndianRoundTrip | src/services/pnodeDecoder.ts:77-83 | encoding the value of a byte string gives the bytes back |
| Borsh.ToLittleEndianRoundTrip | src/services/pnodeDecoder.ts:77-83 | a number that fits reads back from its encoding |
| Borsh.ReadBytes | src/services/pnodeDecoder.ts:69-84 | reading n bytes succeeds exactly when n bytes remain, and splits the input there |
| Borsh.ReadU64 | src/services/pnodeDecoder.ts:77-80 | a `u64` read succeeds exactly when 8 bytes remain and yields a value below 2^64 |
| Borsh.ReadStr | src/services/pnodeDecoder.ts:72-82 | a string is a `u32` length followed by that many bytes, and fails when they run out |
| Borsh.DecodeLayout | src/services/pnodeDecoder.ts:69-84 | fewer than 65 bytes never decode; a decoded record used 65 bytes plus its three strings, and the rest is what is left |
| Borsh.Encode | src/services/pnodeDecoder.ts:69-84 | an encoded record takes 65 bytes plus its three strings |
| Borsh.DecodeEncode | src/services/pnodeDecoder.ts:69-84 | decoding an encoded record, whatever follows it, gives the record and the trailing bytes back |
| Borsh.DecodedIsEncoding | src/services/pnodeDecoder.ts:69-84 | every successful decode read an encoding of the record it returned and consumed at least 65 bytes |
| Borsh.ShortNeverDecodes | src/services/pnodeDecoder.ts:69-84 | fewer than 65 bytes never decode |
| Decoder.IfNumber | src/services/pnodeDecoder.ts:180-183 | a number field is used when it holds a number and is 0 otherwise |
| Decoder.TextOrEmpty | src/services/pnodeDecoder.ts:179-197 | a text field defaults to the empty string |
| Decoder.ParseBN | src/services/pnodeDecoder.ts:184-200 | `new BN` accepts exactly digits after an optional minus sign, ignoring whitespace |
| Decoder.U64Field | src/services/pnodeDecoder.ts:184-200 | a `BN` is kept, a falsy value is 0, an integer or digit string is parsed, and a fraction, `true` or an object throws |
| Decoder.ParseBNRoundTrip | src/services/pnodeDecoder.ts:184-200 | `new BN` reads back the decimal text of every integer |
| Decoder.U64FieldIntegers | src/services/pnodeDecoder.ts:184-200 | an integer given as a number or as its decimal text becomes that integer |
| Decoder.MapParsed | src/services/pnodeDecoder.ts:178-207 | the mapping succeeds exactly when all five `u64` fields convert, and then fills each field by its rule |
| Decoder.EmptyObjectDefaults | src/services/pnodeDecoder.ts:178-201 | an object with no fields maps to empty text and zeros |
| Decoder.ByteData | src/services/pnodeDecoder.ts:215-228 | bytes are taken from a string or the array's first element, and from nothing else |
| Decoder.Attempt | src/services/pnodeDecoder.ts:248-262 | an offset yields a record exactly when at least 10 bytes remain and the layout decodes |
| Decoder.ProbeFindsFirst | src/services/pnodeDecoder.ts:244-271 | the probe fails exactly when every offset fails, and otherwise returns the first offset's success |
| Decoder.DecodeAccount | src/services/pnodeDecoder.ts:155-300 | a parsed object is mapped (or null when it is not an object or the mapping throws); otherwise the bytes are probed; no bytes give null; nothing throws |
| Decoder.FirstOffsetWins | src/services/pnodeDecoder.ts:244-262 | offset 8 is tried only when offset 0 fails |
| Decoder.ShortSliceSkipIsRedundant | src/services/pnodeDecoder.ts:250-255 | a slice shorter than 10 bytes would not have decoded anyway |
| Decoder.EncodedAccountDecodes | src/services/pnodeDecoder.ts:244-262 | an account whose bytes are an encoded record decodes to that record |
| Decoder.DiscriminatedAccountDecodes | src/services/pnodeDecoder.ts:244-262 | a record behind an 8-byte discriminator always yields a record, and that record itself whenever offset 0 fails |
| Decoder.DecodedIndices | src/services/pnodeDecoder.ts:305-319 | the positions of the accounts that decode, in increasing order |
| Decoder.DecodedIndicesComplete | src/services/pnodeDecoder.ts:305-319 | every account that decodes has its position listed |
| Decoder.DecodeAccounts | src/services/pnodeDecoder.ts:305-319 | exactly the non-null decodes, in account order, no more than there are accounts |
| Decoder.AllDecodeAligned | src/services/pnodeDecoder.ts:305-319 | when every account decodes, record i is account i's |
| PNodeTransform.MapStatus | src/services/pnodeTransform.ts:9-18 | 1 is active, 2 syncing, every other code inactive |
| PNodeTransform.BytesToGB | src/services/pnodeTransform.ts:23-26 | the GB value times 2^30 is the byte count, with no rounding |
| PNodeTransform.WholeGB | src/services/pnodeTransform.ts:23-26 | k·2^30 bytes are exactly k GB |
| PNodeTransform.BnToNumber | src/services/pnodeTransform.ts:31-34 | an absent value is 0 and a `BN` its value |
| PNodeTransform.KeyPrefix | src/services/pnodeTransform.ts:41 | the first eight characters of the key, or the whole key when shorter |
| PNodeTransform.TransformPNode | src/services/pnodeTransform.ts:39-56 | identity falls back to "pNode-" plus the key's first eight characters, peer id to the key, version to "unknown"; scores pass through unclamped; heartbeat seconds become milliseconds; storage is bytes / 2^30 |
| PNodeTransform.TextFieldsNeverEmpty | src/services/pnodeTransform.ts:41-53 | identity and version are never empty, and peer id is not when the key is not |
| PNodeTransform.TransformPNodes | src/services/pnodeTransform.ts:61-66 | one node per record, record i paired with account i |
| FetchPnodes.IngestAsWritten | src/hooks/useFetchPnodes.ts:41-52 | one node per decoded record |
| FetchPnodes.MisalignedFallback | src/hooks/useFetchPnodes.ts:41-52 | a failed account ahead of a record without identity names that record after the failed account |
| FetchPnodes.Ingest | src/hooks/useFetchPnodes.ts:41-52 | each decoded record becomes a node with its own account's key |
| FetchPnodes.IngestMatchesDecode | src/services/pnodeDecoder.ts:305-319 | the corrected ingest has one node per decoded record, in order |
| FetchPnodes.AgreeWhenAllDecode | src/hooks/useFetchPnodes.ts:41-52 | when every account decodes, the corrected and the written ingest agree |
| FetchPnodes.AgreeAt | src/hooks/useFetchPnodes.ts:41-52 | where the i-th record is account i's, the two ingests agree at i |
| FetchPnodes.FallbackUsesOwnKey | src/services/pnodeTransform.ts:41 | in the corrected ingest a made-up identity always carries the key of the record's own account |
| Badges.StatusBadge | src/utils/badges.ts:3-15 | active is success, syncing warning, inactive error |
| Badges.Grade | src/utils/badges.ts:17-40 | success from the good threshold up, warning from the fair one, error below both |
| Badges.UptimeBadge | src/utils/badges.ts:17-23 | success from 98, warning in [95,98), error below |
| Badges.ReputationBadge | src/utils/badges.ts:25-32 | success from 8, warning in [5,8), error below |
| Badges.PerformanceBadge | src/utils/badges.ts:34-40 | success from 90, warning in [75,90), error below |
| Badges.GradeMonotone | src/utils/badges.ts:17-40 | with ordered thresholds a higher score never gets a worse badge |
| Badges.ScoreBadgesMonotone | src/utils/badges.ts:17-40 | the uptime, reputation and performance badges are monotone |
| Badges.OnlySuccessBackgroundFollowsMode | src/utils/badges.ts:42-53 | only the success background changes with dark mode, and the four backgrounds differ |
| Badges.BordersDistinct | src/utils/badges.ts:55-62 | the four borders differ |
| Badges.WarningTextLikeError | src/utils/badges.ts:64-79 | warning and error text look alike; only info text ignores the mode |
| Badges.BadgeColor | src/utils/badges.ts:42-53 | every background is an `rgba` colour; it is translucent at 0.15 exactly unless it is the light-mode success background |
| Badges.BorderColor | src/utils/badges.ts:55-62 | every border is a theme colour token |
| Badges.TextColor | src/utils/badges.ts:64-79 | the text is white exactly for warning and error in dark mode, and the red error border colour exactly for warning and error in light mode |
| Format.FormatTime | src/utils/format.ts:1-12 | missing or empty gives "N/A"; an unreadable date gives "Invalid Date"; otherwise seconds below a minute (negative for the future), minutes below an hour, hours below a day, then the date |
| Format.FloorSteps | src/utils/format.ts:4-10 | flooring to seconds, then minutes, then hours equals flooring once by the larger unit |
| Format.AmountsInRange | src/utils/format.ts:4-10 | the number shown is the elapsed time floored to its unit: seconds below 60, minutes 1-59, hours 1-23 |
| Format.RenderDistinguishes | src/utils/format.ts:2-10 | different relative labels never render to the same text |
| Format.Render | src/utils/format.ts:2-11 | a relative label reads as the signed count followed by a unit and " ago"; "N/A" and "Invalid Date" never end in " ago" |

## Left out

- Rendering components, the theme and the entry point: these are UI only.
- Transport and proxy code (the RPC clients, the API service, the dev-server proxy, the fetch polyfill): this is network I/O. A fetch's outcome is the input `Reply`.
- The mock service (`src/services/pNodeService.ts`): it is random data on a timer.
- The zustand store (`src/store/usePnodesStore.ts`) and the react-query plumbing of `useFetchPnodes` (retry, backoff, polling, the empty-result early returns at src/hooks/useFetchPnodes.ts:32-38,43-49). The setters are trivial. Only the decode-then-transform step (lines 41-52) is modelled.
- `base64ToUint8Array` (`atob`): account data arrives already decoded as bytes, or as `Invalid`.
- `inspectPNodeBuffer` and all console logging: debugging output.
- `Date.now()`, `new Date()`, `setInterval` and `setTimeout` scheduling, and React effect timing: the clock is a parameter and the countdown is a step function `Tick`.
- IEEE-754 rounding: scores are `real`. `toFixed(2)` in the stats is not modelled: `Stats.Mean` returns the exact mean, and "0" is `None`.
- Decoder.FromLayout: the `f32` fields stay 4-byte words. Their numeric reading is the parameter `f32`.
- Borsh.ReadStr: the string bytes become one character per byte, not UTF-8 decoding. Round trips therefore hold for character codes below 256.
- Decoder.MapParsed: text fields of the parsed object are modelled as strings or absent. A truthy non-string value (a number or an object) in `identity`, `peerId` or `version` is not modelled. Nor are arrays or `NaN` in the `u64` fields.
- Decoder.U64Field: a number is turned into text only for integers below 10^21 in magnitude; larger numbers and exponent notation throw, as `new BN` does on `"1e+21"`.
- PNodeTransform.BnToNumber: the assertion inside `BN.toNumber` that the value fits in 53 bits is not modelled. Nor is the plain-number branch, which no caller reaches.
- PNodeTransform.TransformPNode: the `new Date()` fallback for a missing heartbeat is left out. A `BN` is always an object and so truthy, so the fallback is unreachable and the heartbeat is always seconds × 1000.
- Badges.StatusBadge: the `|| "info"` default is unreachable for the three statuses. `Info` exists only for the colour lookups.
- Text.Collate: `localeCompare` is modelled as code-unit lexicographic order on lower-cased strings. Only its being a total order on strings is used. ASCII-only lower-casing (`Text.LowerChar`) stands in for `toLowerCase`.
- Format.Render: `toLocaleDateString` is the parameter `localDate`.
- PodTransform.JsRound: `Math.round` is modelled on reals, not on doubles.
- PodTransform.Pod: `last_seen_timestamp` is a whole number of seconds (`lastSeen: int`). The feed reports Unix seconds; a fractional timestamp (the field is a `number`, src/utils/podTransform.ts:6, used at lines 22-26 and 189) is not modelled, so neither is a fractional heartbeat in milliseconds nor a status computed from a fractional difference.

Behaviour of the code that a reader might not expect, modelled as written:

- Pagination.Page: the current page is not clamped (src/App.tsx:148-150). A page past the end shows nothing, and page 0 or a negative page slices from the end.
- App.HandleSearch, App.HandleFilterStatus, App.HandleSort: each handler calls `setState` twice. Listeners first see the new query with the old filtered list (`App.FirstNotificationIsStale`).
- PodTransform.PerformanceTally: the storage factor counts whenever the percentage is defined, and being public is a factor worth 100 rather than a +10 bonus. The doc comment above `calculatePerformance` in src/utils/podTransform.ts says otherwise.

## Findings

| source | as written | input that shows it | evidently intended | confidence | as-written member | corrected member |
|---|---|---|---|---|---|---|
| src/hooks/useFetchPnodes.ts:41-52 with src/services/pnodeTransform.ts:61-66 | `decodePNodeAccounts` drops the accounts that fail to decode, but `transformPNodes` pairs decoded record i with `accounts[i]`, so after a failure every later record gets a neighbour's key for its identity and peer id fallbacks | accounts A (no decodable data) and B (a parsed record without identity): the one node is B's record named "pNode-AAAAAAAA" with peer id A's key | each record paired with the account it was decoded from | not executed | FetchPnodes.MisalignedFallback | FetchPnodes.Ingest |
