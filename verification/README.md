# AgFabric back end: models and proofs

AgFabric is the back end of a grain business: it takes in deliveries and documents, answers questions
over them, watches for risk and values open contracts. This project models the stateful and algorithmic
parts of `backend/app` in Dafny and proves what they promise. `dafny verify dfyconfig.toml` checks it all.

Code that changes things step by step is a class or a method with loops, tied by its `ensures` to a
function or predicate; the promises are then lemmas about that function. Where requests interleave
(webhooks, indexing, spending) the code is a state machine of atomic database steps, the promises hold
for every sequence of steps, and one uninterrupted call is shown to be a run of that machine: `ReceiveDelivery`,
`IndexDocument` and `Upload`, `HybridQuery`.

| module | what it models |
|---|---|
| `NodeIds`, `Walks`, `Graph`, `GraphColumns`, `Expansion` | node ids, building the knowledge graph and reading it off the tables' columns, breadth-first expansion and its client |
| `Text`, `Paragraphs`, `Chunk`, `ReadBack` | white space, cutting a text into paragraphs, windowing of long ones and greedy packing, and reading chunks back |
| `Window`, `RateLimit` | the sliding-window limiter: one key, then the class with its bounded table |
| `Webhooks`, `WebhookRuns`, `Bushels` | delivery ingestion by concurrent workers that may die; net bushels at ingest and at audit |
| `Indexing`, `Reindexing`, `Versions` | vector points against chunk flags, by interleaved failing workers; the upload, index and reindex calls; version numbers of overlapping uploads |
| `Alerts`, `Runs` | alert reconciliation, the record of agent runs |
| `Scheduler`, `Lateness` | the scheduler loop, and how late it can really be |
| `Spend` | the spend cap and the audit rows it sums |
| `Duplicates`, `DuplicateOrder`, `Positions`, `PositionReport` | duplicate invoices, mark to market, positions and what their report says |
| `Rounding`, `Sorting`, `Selections`, `Sets`, `Wrappers` | rounding, a stable sort, what a loop keeps, sizes of sets, Option and Result |

## What the code does not promise

Some claims one would like to make, or that a comment makes, are false of the code. The code is modelled as it is, and for
each there is an input that breaks the claim and a theorem saying exactly when it holds.

- *A crashed webhook event can be replayed* (`backend/app/webhooks.py:13-14`). It cannot: a repeat of the same bytes is
  answered as a duplicate (`ReplayIsNoOp`), so an event whose worker died stays `received` (`CrashStrands`). An event
  stays `received` in every continuation if and only if no worker holds it (`StrandedIff`).
- *A verification takes effect once.* The delivery row ends `verified` either way, but two events that both look before either
  commits both end `processed` (`BothVerify`). Once the delivery is verified, another verification can be processed if and only
  if its worker has looked already, while it was not (`SecondVerifyIff`).
- *The fingerprint is the same whatever the scan order* (`backend/app/risk.py:82`). True of one pair; the set of pairs is the
  same for every input order if and only if no two invoices of a group share a day with a third within the window
  (`OrderIndependentIff`, `TiedTriple`).
- *A delivery the webhook accepts is consistent.* Its weights can become equal when stored to two places, and it is then
  flagged (`CloseWeightsAreFlagged`). For a conversion factor of 0.02 lb per bushel or more that is the only way; the column also
  holds 0.01, and there weights whose difference moves in storage by more than 0.00505 lb are flagged too
  (`HundredthIsFlagged`). `FlaggedIff` is the condition for every factor, `OnlyMergingIff` says 0.01 is the one exception.
- *The heartbeat alone bounds lateness* (`backend/app/scheduler.py:33-35`). Agents run one after another: of two
  due at 300, the second starts at 331 if the first takes 31 seconds (`SecondIsLate`). The heartbeat alone is a bound if and
  only if there is one agent or runs take no time (`HeartbeatBoundsIff`). The bound that does hold, `RunIsPunctual`, adds two
  rounds of the other agents' runs and cannot be improved (`LatenessIsTight`); nor can the one round it adds when intervals are
  long (`UnhurriedIsTight`).
- *A new upload of a name is its next version* (`backend/app/documents.py:89-93`). The number is read well before the
  document is stored, so two overlapping uploads can share one (`OverlapSharesVersion`). The versions of every name are 1, 2, 3
  and so on if and only if no document is stored whose version was read before the last one of its name was stored (`VersionsIff`).
- *The spend cap is a ceiling.* A positive cap is one if and only if requests cost nothing or none is let in
  (`CeilingIff`). The bound that does hold is the cap plus one cost per request in flight (`SpendBound`), and some run comes
  as close to it as one likes (`BoundIsTight`). Cost that never reaches the audit log is not capped at all: the log is
  the charge if and only if no request leaves without its row (`LogIsCharge`, `UnloggedIsUncapped`).

## Model

| member | source | states |
|---|---|---|
| NodeIds.RoundTrip | backend/app/graph.py:41-54 | parsing a printed node id gives the pair back if and only if the kind is known and the key is not negative and has at most 4300 digits, whatever the digits of other scripts |
| NodeIds.IdsAreInjective | backend/app/graph.py:41-42 | node ids of two rows never collide |
| NodeIds.ParsedShape | backend/app/graph.py:45-54 | an accepted string is a known kind, a colon and at most 4300 decimal digits of any script; printing it again gives the same string iff they are ASCII without a leading zero |
| NodeIds.AcceptedIff | backend/app/graph.py:51-54 | a string is accepted iff it is such a kind, colon and digits; a superscript is refused though it is a digit, and so are digits beyond what Python 3.12 converts |
| NodeIds.ParseOfDecimal | backend/app/graph.py:54 | reading back a printed natural number gives the number |
| NodeIds.DecimalOfParse | backend/app/graph.py:52-54 | the digits the printer can produce are exactly the ASCII ones without a leading zero |
| NodeIds.PartitionRestores | backend/app/graph.py:51 | the part before the first colon holds none, and joining the parts restores the string |
| Graph.Build | backend/app/graph.py:57-118 | nodes are the table rows, edges the foreign keys that are not null and not dangling, in order; every edge ends at nodes, and with keys distinct in each table none is listed twice |
| Graph.EdgesMatchKeys | backend/app/graph.py:94-116 | with keys distinct in each table the edges are in bijection with the foreign keys that hold |
| GraphColumns.EdgesFromColumns | backend/app/graph.py:104-116 | an edge is in the graph iff one of the nine foreign keys gives it: the two row ids, the relation and the direction, both rows being there |
| GraphColumns.NodesFromColumns | backend/app/graph.py:79-92 | with distinct keys every row has its node with its id, kind, title and extra column, and there are no more nodes than rows |
| Graph.BuildNodes | backend/app/graph.py:72-92 | the node dictionary holds every row of the seven tables, the last one winning under an id |
| Graph.BuildEdges | backend/app/graph.py:94-116 | the edge list holds one edge per foreign key whose two rows exist |
| Graph.AddLink | backend/app/graph.py:96-102 | a lookup by node id decides exactly whether the two rows exist |
| Graph.NodeIsRow | backend/app/graph.py:74-77 | an id is among the nodes iff some row has that kind and key |
| Graph.NodePerRow | backend/app/graph.py:74-92 | with distinct keys there is one node per row, carrying that row |
| Graph.NodesAreRows | backend/app/graph.py:79-92 | with keys distinct in each table, the node count is the total of the seven tables' rows |
| Graph.EdgeIdentifiesLink | backend/app/graph.py:96-102 | two foreign keys never give the same edge |
| Graph.EdgesEndAtNodes | backend/app/graph.py:96-102 | both endpoints of every edge are nodes |
| Walks.DistanceIsSymmetric | backend/app/graph.py:140-141 | an invoice is as far from its customer as the customer from the invoice |
| Walks.DeeperExtends | backend/app/graph.py:145-162 | the hops for a smaller depth are the part of a larger depth's within it, unchanged |
| Expansion.Adjacency | backend/app/graph.py:147-150 | the list under a node holds exactly the edges that touch it |
| Expansion.Visit | backend/app/graph.py:158-162 | after a node is visited all its neighbours are discovered, at most one hop further, and nothing is renumbered |
| Expansion.Search | backend/app/graph.py:152-162 | hops holds a node iff its shortest undirected distance is at most depth, and that distance; the loop ends |
| Expansion.ExploredIsComplete | backend/app/graph.py:154-162 | a node some walk of k edges reaches, k within depth, is discovered at k hops or fewer |
| Expansion.SearchIsExact | backend/app/graph.py:152-162 | a finished search records exact shortest distances and misses nothing |
| Expansion.KeepInduced | backend/app/graph.py:165 | the kept edges are the induced subgraph of the nodes within depth, in graph order |
| Expansion.InducedAt | backend/app/graph.py:165 | the induced edges are the graph's with both ends in reach, each where it stood and as often |
| Expansion.SortedItems | backend/app/graph.py:171 | each discovered node appears once with its hops, nearest first, ties by id |
| Expansion.Expand | backend/app/graph.py:137-174 | an unknown start is refused; on a well-formed graph the answer is exactly the neighbourhood within the clamped depth |
| Expansion.DeeperNeighbourhood | backend/app/graph.py:145-174 | the answer for a smaller depth is the part of the deeper answer within it, same hops, edges included |
| Expansion.GraphContext | backend/app/query.py:412-444 | the triples are those of each resolved seed's neighbourhood in turn, each edge where it first appears |
| Expansion.ContextIsExact | backend/app/query.py:425-443 | each edge near some resolved seed is told once, with the titles of the nodes its two ids name and its relation, and nothing else is |
| Expansion.ContextInSeedOrder | backend/app/query.py:427-434 | an edge told before another is in reach of a seed no later than any that reaches the other |
| Chunk.Windows | backend/app/chunk.py:32-40 | window j is the slice at j steps, and the windows stop at the end of the paragraph |
| Chunk.WindowsRoundTrip | backend/app/chunk.py:32-40 | dropping each later window's shared prefix and joining rebuilds the paragraph |
| Chunk.WindowsShareBoundary | backend/app/chunk.py:16-21 | a window starts with exactly the tail of the one before |
| Chunk.BlockBounds | backend/app/chunk.py:37-40 | every piece is non-empty, at most size, and the pieces rebuild their paragraph |
| Chunk.Pack | backend/app/chunk.py:42-54 | chunks join the groups of a greedy grouping of the pieces |
| Chunk.GreedyIsOptimal | backend/app/chunk.py:42-54 | no order-preserving grouping that fits has fewer groups |
| Chunk.GreedyIsUnique | backend/app/chunk.py:42-54 | there is only one greedy grouping |
| Chunk.ChunkText | backend/app/chunk.py:15-54 | refused iff size or overlap is out of range; else every chunk is non-empty, at most size, no grouping uses fewer, each kept paragraph can be rebuilt, and with none too long the chunks hold all the text but white space |
| Chunk.CutAll | backend/app/chunk.py:33-40 | the pieces are the blocks of the non-empty paragraphs, in order |
| Chunk.BlocksKeepText | backend/app/chunk.py:28-40 | with the overlaps dropped again the pieces hold the whole text, white space aside |
| Chunk.UncutKeepsText | backend/app/chunk.py:34-54 | a text with no paragraph too long is all there in its chunks, white space aside |
| Chunk.ChunksAreUnique | backend/app/chunk.py:15-54 | a text has only one chunking that meets the specification |
| ReadBack.ChunksReadBack | backend/app/chunk.py:11-54 | when no paragraph is too long, cutting every chunk at its blank lines gives the text's paragraphs back, each once and in order |
| ReadBack.GroupReadsBack | backend/app/chunk.py:12 | paragraphs joined into a chunk are what the chunk is cut into again |
| Paragraphs.MatchIsBlank | backend/app/chunk.py:11 | the pattern matches at a place exactly when a blank line begins there, and matches white space only |
| Paragraphs.ParagraphsAreClean | backend/app/chunk.py:34 | no paragraph holds a blank line or begins or ends in white space |
| Paragraphs.ParagraphsKeepText | backend/app/chunk.py:28-34 | stripping, splitting and stripping again lose nothing but white space |
| Window.DequeCountsLog | backend/app/ratelimit.py:33-36 | the pruned deque never counts more than the log's recent calls, and exactly as many unless a live hit was lost |
| Window.AdmitKeeps | backend/app/ratelimit.py:36-38 | admitting a call keeps every limit+1 calls at least a window apart |
| Window.PruneKeeps | backend/app/ratelimit.py:33-35 | popping expired hits loses nothing that counts |
| Window.StaleKeeps | backend/app/ratelimit.py:59-61 | dropping a stale key loses nothing that counts |
| Window.LoseKeeps | backend/app/ratelimit.py:62-66 | dropping an active key loses no more than the calls up to its latest hit |
| Window.IntervalBound | backend/app/ratelimit.py:29-41 | a log in which any limit+1 calls in a row since the last loss span a window has at most limit calls in every half-open window from then on |
| Window.RetryIsEnough | backend/app/ratelimit.py:43-49 | a call at least that many seconds later is let through, expired entries in the deque or not |
| Window.RetryIsTight | backend/app/ratelimit.py:48-49 | a refused key is let through exactly from its oldest hit's expiry, and the wait is the first whole second past it |
| RateLimit.SlidingWindow.Allow | backend/app/ratelimit.py:29-41 | allowed iff fewer than limit logged calls are in the window (nothing lost); a refusal is always backed by limit real calls; a key with a hit in the window goes only when every key has one, then one, whose latest hit is nobody's later, never the caller |
| RateLimit.SlidingWindow.Purge | backend/app/ratelimit.py:32-35 | the key ends in the table, newest if it was absent, with its expired hits gone |
| RateLimit.SlidingWindow.Admit | backend/app/ratelimit.py:38-40 | the hit is recorded and the table is back within its bound |
| RateLimit.SlidingWindow.Evict | backend/app/ratelimit.py:58-66 | stale keys go; if that is not enough exactly one active key goes, not the newcomer |
| RateLimit.SlidingWindow.Retry | backend/app/ratelimit.py:43-49 | any call that much later would be let through |
| RateLimit.SlidingWindow.Reset | backend/app/ratelimit.py:51-56 | one key or all are cleared, the order of the rest and every other guarantee kept |
| RateLimit.SlidingWindow.constructor | backend/app/ratelimit.py:16-27 | an empty table satisfying the invariant |
| RateLimit.MakeLimiter | backend/app/ratelimit.py:22-23 | refused iff limit is below 1 or the window is not positive |
| RateLimit.LimitHolds | backend/app/ratelimit.py:29-41 | after any calls, a key has at most limit allowed calls in every half-open window that begins no earlier than its last loss, or in every one if it has lost nothing |
| RateLimit.VictimIsLeastRecent | backend/app/ratelimit.py:64-66 | the key dropped by force has the oldest latest hit |
| RateLimit.NewcomerIsSafe | backend/app/ratelimit.py:64-66 | the key just admitted is never the one dropped, all-equal times included |
| RateLimit.LeastRecent | backend/app/ratelimit.py:64-66 | exactly one key is chosen, least recently active and not the newcomer |
| RateLimit.RestrictKeepsOrder | backend/app/ratelimit.py:59-66 | of two keys left after an eviction, the one added first still stands first |
| Webhooks.StepKeeps | backend/app/webhooks.py:139-166 | each atomic step keeps unique keys, one worker per event, and the ticket correspondence |
| Webhooks.InsertMatches | backend/app/webhooks.py:233-249 | the insert and the status change together add one delivery and one processed event under a new ticket |
| Webhooks.EveryRunKeeps | backend/app/webhooks.py:102-175 | in every interleaving of requests, replays and crashes: one row per digest, and deliveries one to one with processed recordings |
| Webhooks.RecordingIff | backend/app/webhooks.py:183-222 | a recording leads to an insert iff its ticket is new and its payload acceptable, and is ignored iff its ticket is taken |
| Webhooks.NewRowTells | backend/app/webhooks.py:219-248 | a payload gives a row iff it is acceptable, and then each column holds what the payload says |
| WebhookRuns.OutcomesAreFinal | backend/app/webhooks.py:154-166 | rows are never lost, an event leaves received at most once, a delivery changes only by becoming verified |
| WebhookRuns.ExactlyOnce | backend/app/webhooks.py:183-255 | after any run, new deliveries are as many as processed recordings, each made from its event's payload |
| WebhookRuns.EveryRowTells | backend/app/webhooks.py:233-248 | over every run each new delivery holds, column by column, the payload of a processed recording of its ticket: customer, facility, commodity, contract, weights, bushels, moisture, truck and time |
| WebhookRuns.VerifiedIff | backend/app/webhooks.py:266-270 | over every run a delivery is verified iff it was at the start or a verification of its ticket was processed |
| WebhookRuns.OneRowPerBody | backend/app/models.py:216 | after any run, two event rows with a body's digest are the same row |
| WebhookRuns.ReplayIsNoOp | backend/app/webhooks.py:139-152 | once a body is stored, it stays so after any steps, and a later request with the same bytes changes nothing |
| WebhookRuns.AbandonedForGood | backend/app/webhooks.py:139-166 | an event no worker holds never changes again |
| WebhookRuns.StrandedIff | backend/app/webhooks.py:154-166 | an event is received in every continuation iff no worker holds it |
| WebhookRuns.CrashStrands | backend/app/webhooks.py:154-166 | a worker that dies after storing its event leaves it received in every continuation |
| WebhookRuns.WinnerMakesLoser | backend/app/models.py:102 | when one of two workers holding the same ticket commits, the other has lost |
| WebhookRuns.BothRecord | backend/app/webhooks.py:188-249 | two recordings of one new ticket do race; one inserts the delivery and the other's event ends failed |
| WebhookRuns.LoserNeverSucceeds | backend/app/webhooks.py:154-166 | a loser's event is failed or still waiting to be, in every continuation |
| WebhookRuns.LateVerifyIsIgnored | backend/app/webhooks.py:266-267 | a verification that looks after another committed is never processed |
| WebhookRuns.BothVerify | backend/app/webhooks.py:263-270 | two verifications that look before either commits are both processed |
| WebhookRuns.SecondVerifyIff | backend/app/webhooks.py:258-270 | once a delivery is verified, another verification can still be processed iff its worker found it unverified before |
| WebhookRuns.IngestAgreesWithAudit | backend/app/risk.py:207-263 | over any run, for any factors provisioning can leave in the column, 0.00 included, a webhook-made delivery is flagged iff the weights in its payload merge in storage or, at 0.01, their difference moves by more than 0.00505 |
| WebhookRuns.AuditReports | backend/app/risk.py:208-262 | among any rows the audit is given, a webhook-made delivery is reported, under its ticket, iff its payload says it will be |
| WebhookRuns.Inbox.ReceiveDelivery | backend/app/webhooks.py:102-174 | one uninterrupted request is a run of the machine; the event stored has the digest, the payload and the status answered; a recording ends processed iff it is new and acceptable and the write succeeds, ignored iff its ticket is taken |
| WebhookRuns.Inbox.RecordDelivery | backend/app/webhooks.py:183-255 | processed iff the ticket is new, the payload acceptable and the write succeeds; then one unverified row is added that holds the payload; ignored iff the ticket is taken; nothing is written otherwise |
| WebhookRuns.Inbox.VerifyDelivery | backend/app/webhooks.py:258-270 | processed iff the delivery is there, unverified, and the write succeeds; then it is verified and nothing else changes; ignored iff it was verified |
| WebhookRuns.Uninterrupted | backend/app/webhooks.py:154-166 | a handler's outcome and the event's status are what look, commit and mark-failed leave |
| Bushels.DataInconsistencies | backend/app/risk.py:196-263 | one alert, in order, for each delivery with weights out of order, or a known positive factor and a drift over tolerance; it names the ticket, the problem and the drift, and is high iff the weights are out of order or the drift is over twenty times the tolerance |
| Bushels.DriftBound | backend/app/webhooks.py:224 | storing weights to two places moves the recomputed bushels by at most 0.01/lbs + 0.01 |
| Bushels.DriftTolerated | backend/app/risk.py:235-238 | from 0.02 lb per bushel up that movement stays within the tolerance |
| Bushels.DriftAtHundredth | backend/app/risk.py:235-238 | at 0.01 the drift exceeds the tolerance iff the stored difference moved by more than 0.00505 lb |
| Bushels.FlaggedIff | backend/app/risk.py:207-238 | for any factor the column holds, an accepted delivery is flagged iff its stored weights became equal or, at 0.01, their difference moved by more than 0.00505 lb |
| Bushels.OnlyMergingIff | backend/app/models.py:51 | merging weights are the only cause of a flag iff the factor is not 0.01 |
| Bushels.HundredthIsFlagged | backend/app/provision.py:61 | at 0.01 a delivery recorded as 0.01 bushels is recomputed as one and flagged, its weights not merged |
| Bushels.NeverFlagged | backend/app/models.py:108-110 | a gap of a hundredth of a pound and a factor of at least 1 mean never flagged and agreement to 0.02 bushels |
| Bushels.CloseWeightsAreFlagged | backend/app/webhooks.py:221-222 | weights three thousandths apart are accepted, stored equal, and flagged |
| Indexing.IndexAgreesWithFlags | backend/app/indexing.py:17-58 | in every run with interleaved, failing workers: a point carries the embedding of its chunk's whole text, that chunk's place, its document's name and digest and a preview; flagged chunks have one; a document is embedded iff it has chunks and all are flagged |
| Indexing.StepKeeps | backend/app/vectors.py:59-80 | each step keeps that agreement, a partial upsert included |
| Indexing.CommitKeeps | backend/app/indexing.py:50-57 | flagging after a confirmed write keeps it, even if another worker flagged or uploaded meanwhile |
| Indexing.UploadKeeps | backend/app/documents.py:106-133 | a new document with unflagged chunks disturbs no point, flag or worker |
| Indexing.UploadStores | backend/app/documents.py:107-133 | an upload stores its name, digest, next version and status, and each text as an unflagged chunk at its ordinal, and changes nothing else |
| Indexing.RunAdvances | backend/app/indexing.py:50-57 | no document, chunk or point is lost and no flag is taken back |
| Indexing.VersionsCount | backend/app/documents.py:89-93 | in every run of uploads that do not overlap, the documents under one name are numbered 1, 2, 3 and so on, each once |
| Versions.VersionsIff | backend/app/documents.py:89-133 | when uploads overlap, the numbering holds iff no document is stored whose version was read before the last one of its name was stored |
| Versions.RaceShares | backend/app/documents.py:93-119 | such a document shares its version with another of its name |
| Versions.OverlapSharesVersion | backend/app/documents.py:89-93 | two uploads of a new name that both read before either stores are both version 1 |
| Reindexing.VectorIndex.Upload | backend/app/documents.py:76-155 | a digest already stored is a duplicate; a file that cannot be read, stored or cut leaves the tables alone; else the text's own chunks are stored and indexed as a run of the machine, and a failure to index is only reported |
| Reindexing.VersionAfter | backend/app/documents.py:90-93 | one more than the highest version under the name |
| Reindexing.VectorIndex.IndexDocument | backend/app/indexing.py:17-58 | the call is a run of the machine; without a fault every chunk owed an embedding gets its own point, all the document's chunks are flagged, the count is theirs and nothing else changes; with one no flag changes |
| Reindexing.VectorIndex.Reindex | backend/app/indexing.py:61-83 | a chunk is flagged after the pass iff it was before or its document does not fail; the count, the documents seen and the failures are theirs |
| Reindexing.CallIsRun | backend/app/indexing.py:17-58 | what each way a call can end leaves of the tables |
| Reindexing.FaultFreeFlagsAll | backend/app/indexing.py:61-83 | a pass without failures flags every chunk, counts each once, and leaves no document waiting |
| Reindexing.SecondPassIsIdle | backend/app/indexing.py:61-83 | after such a pass another changes nothing |
| Reindexing.FailuresStayPending | backend/app/indexing.py:71-77 | what is still pending after a pass is exactly what was pending in the documents that failed |
| Alerts.AlertTable.UpsertAlerts | backend/app/agents.py:85-159 | the rows and counts after a scan are those of the scan function |
| Alerts.ScanMeans | backend/app/agents.py:96-150 | row by row: a new alert is open with its kind and both times of the scan; one seen again takes the last finding's details and reopens if resolved; a live one not reported is resolved at the time of the scan; no other row changes |
| Alerts.CountsMean | backend/app/agents.py:106-159 | created, updated, reopened and auto-resolved count the new, the live again, the resolved again and the live unreported fingerprints |
| Alerts.AlertTable.RecordFound | backend/app/agents.py:106-139 | each distinct finding creates, reopens or updates its row and is counted as that |
| Alerts.AlertTable.ResolveStale | backend/app/agents.py:141-150 | exactly the live, unreported rows are resolved and counted |
| Alerts.AlertTable.Acknowledge | backend/app/agentsapi.py:127-158 | 404 iff absent or of the three finance kinds and hidden, 409 iff seen and resolved, 200 iff seen and live, and then acknowledged by that user; no other row changes |
| Alerts.AlertTable.Resolve | backend/app/agentsapi.py:140-158 | 404 iff absent or hidden, else resolved at that time by that user; no other row changes |
| Alerts.ByFingerprintKeys | backend/app/agents.py:97 | the distinct fingerprints are those reported, each with one of the findings that carry it |
| Alerts.CountsBalance | backend/app/agents.py:153-159 | created, updated and reopened add up to the distinct findings, and the live total moves by what was created and reopened less what was resolved |
| Alerts.LiveOrEmpty | backend/app/agents.py:141-150 | after a scan the live fingerprints are the reported ones, and after an empty scan a live empty one |
| Alerts.LiveAreReported | backend/app/risk.py:43-51 | fingerprints being digests, in every run from an empty table a scan leaves exactly the reported alerts live |
| Alerts.RepeatOnlyUpdates | backend/app/agents.py:127-139 | repeating a scan creates, reopens and resolves nothing and moves only last seen |
| Alerts.ResolvedAtAgrees | backend/app/agents.py:134-150 | over any run of scans and human actions, resolved_at is set iff the row is resolved |
| Alerts.OriginIsPermanent | backend/app/agents.py:120-133 | over any run, no row is deleted and first_seen_at and kind never change |
| Alerts.AcknowledgedSticks | backend/app/agents.py:93-94 | an alert stays acknowledged throughout a run iff no scan omits it and nobody who can see it resolves it |
| Alerts.AcknowledgedIff | backend/app/agentsapi.py:127-147 | over any run an alert is acknowledged at the end iff some step acknowledged it while it was live and visible, or it was at the start, and no step after that omitted it from a scan or resolved it |
| Runs.ErrorIsNeverEmpty | backend/app/agents.py:328-336 | a failed run's text has 1 to 300 characters, on one line, so a crash is never recorded as ok |
| Runs.ErrorTextIs | backend/app/agents.py:330 | the text is the first line of the stripped message, or the type's name if there is none, cut only at 300 characters |
| Runs.RunTable.Execute | backend/app/agents.py:314-350 | one run is recorded, failed iff the agent raised; its agent keeps the newest of its whole history, other agents are untouched |
| Runs.RunTable.Prune | backend/app/agents.py:353-367 | the agent's kept rows are its newest, as many as retention allows, and only its rows go |
| Runs.Newest | backend/app/agents.py:359-365 | as many as asked, none older than one left out |
| Runs.NewestOfNewest | backend/app/agents.py:353-367 | pruning after every run keeps the newest of everything ever recorded |
| Runs.OneRunRecorded | backend/app/agents.py:345-349 | the table invariant over histories survives one execution |
| Scheduler.RunForever | backend/app/scheduler.py:51-77 | the loop's due times, clock and log are those of the loop function, for any run lengths and any runs that raise |
| Scheduler.RunIsSpaced | backend/app/scheduler.py:65-71 | every start, of a run that raises too, is at least an interval after each earlier run of that agent that did not raise, and was scheduled off one of them |
| Scheduler.RaiseCostsHeartbeat | backend/app/scheduler.py:61-77 | nothing starts, a retry included, sooner than a heartbeat after a run that raised |
| Scheduler.ClockAccounts | backend/app/scheduler.py:61-71 | the clock is the heartbeats and the logged runs: nothing runs unlogged |
| Scheduler.LogIsTrue | backend/app/scheduler.py:65-71 | every entry's length and raise are those of its agent's run in some tick |
| Scheduler.RunIsPunctual | backend/app/scheduler.py:61-71 | without raises every start is before due + heartbeat + two rounds of the other agents' runs, or one round when every interval is longer than a round, and nobody is forgotten |
| Lateness.LatenessIsTight | backend/app/scheduler.py:61-71 | with two agents or more some run is that late, by two rounds of the others, less any margin |
| Lateness.UnhurriedIsTight | backend/app/scheduler.py:61-71 | however long all intervals are asked to be, some run of two agents or more is late by the heartbeat and one round of the others, less any margin |
| Lateness.HeartbeatBoundsIff | backend/app/scheduler.py:33-35 | the heartbeat alone bounds lateness iff there is one agent or runs take no time |
| Lateness.SecondIsLate | backend/app/scheduler.py:63-68 | of two agents due at 300 the second starts at 331 when the first takes 31 seconds |
| Scheduler.StartBound | backend/app/scheduler.py:63-68 | the wait is other agents' runs in the tick that missed it, one heartbeat, and the runs ahead of it |
| Scheduler.OthersFit | backend/app/scheduler.py:65-68 | at most n-1 other agents run in a tick, or in two ticks when none runs in both |
| Scheduler.TickEnds | backend/app/scheduler.py:65-71 | after a tick every agent is late by no more than the runs of the others in it |
| Spend.AuditTrail.SpendGuard | backend/app/query.py:54-81 | admitted iff the cap is off or the last day's logged cost is below it |
| Spend.AuditTrail.HybridQuery | backend/app/query.py:97-197 | one question is a run of the machine: refused iff the cap is on and the last day's log has reached it; otherwise charged, and logged with that cost and time unless answering or the audit write fails |
| Spend.SpendBound | backend/app/query.py:109-197 | in every interleaving of k requests of cost at most c, every trailing day of the log stays below cap + k*c |
| Spend.RunStaysBounded | backend/app/query.py:64-81 | the day's spend plus what requests in flight may add stays below the bound |
| Spend.ZeroCapAdmitsNothing | backend/app/query.py:75 | with a cap of zero nothing is ever admitted or charged |
| Spend.LogIsCharge | backend/app/audit.py:99-102 | the log equals what was charged iff no request leaves without its row |
| Spend.OvershootHappens | backend/app/query.py:109-197 | on top of any spend below the cap, k requests asked together are all charged |
| Spend.BoundIsTight | backend/app/query.py:64-81 | some run comes within any margin of cap + k*c |
| Spend.CeilingIff | backend/app/query.py:54-81 | a positive cap is never passed in any run iff requests cost nothing or none is let in |
| Spend.UnloggedIsUncapped | backend/app/query.py:138-147 | cost that leaves no row is charged any number of times with the log empty |
| Duplicates.Buckets | backend/app/risk.py:62-64 | each bucket holds, in order, the invoices of its customer and amount |
| Duplicates.Compare | backend/app/risk.py:71-74 | neighbours within the window are paired, in order |
| Duplicates.DuplicatePairs | backend/app/risk.py:66-101 | the pairs are the close neighbours of every sorted bucket |
| Duplicates.DuplicateInvoices | backend/app/risk.py:54-101 | one alert per pair; a zero window fails iff there is a pair to report |
| Duplicates.ReportedIff | backend/app/risk.py:67-74 | a pair is reported iff it stands side by side, within the window, in its own group |
| Duplicates.ReportedAreDuplicates | backend/app/risk.py:66-79 | a reported pair is two invoices of one customer and amount, at most the window apart |
| Duplicates.DuplicatesAreLinked | backend/app/risk.py:70-74 | any two such invoices within the window are joined by a chain of reported pairs |
| Duplicates.CountIgnoresOrder | backend/app/risk.py:62-101 | how many alerts there are does not depend on the order of the invoices |
| Duplicates.ConfidenceRange | backend/app/risk.py:75-78 | a reported pair's confidence lies between 0.5 and 0.95 |
| Duplicates.AlertMeans | backend/app/risk.py:75-86 | an alert is high iff the gap is at most seven days, its confidence 0.95 on the same day, 0.5 at the window's edge and within half a cent of the line between |
| Duplicates.ConfidenceFalls | backend/app/risk.py:78 | confidence never rises with the gap |
| Duplicates.ReportedOnce | backend/app/risk.py:66-79 | when no invoice is listed twice no pair is reported twice |
| DuplicateOrder.OrderIndependentIff | backend/app/risk.py:70-85 | the fingerprints are the same for every input order iff no two of a group share a day with a third within the window |
| DuplicateOrder.ClearIgnoresOrder | backend/app/risk.py:70-85 | without such a clash, reordering the invoices changes no fingerprint |
| DuplicateOrder.ClashShows | backend/app/risk.py:70-71 | with one, two orders of the same invoices give different fingerprints |
| DuplicateOrder.TiedTriple | backend/app/risk.py:70-71 | three invoices on one day are such a case |
| Positions.MarkToMarket | backend/app/market.py:238-270 | exactly the contracts with a price and an open balance are valued, in order, each with its balance, market, difference and gain, rounded |
| Positions.GainSign | backend/app/market.py:246-260 | an open purchase gains iff the market is above its price, a sale iff it is below |
| Positions.WorthIsGain | backend/app/market.py:259-260 | the computed figure is what a purchase is worth at the market less what it was contracted for, and the reverse for a sale |
| Positions.Round4Is | backend/app/market.py:265-266 | four-place rounding gives the nearest figure, of two the even one |
| Positions.Accumulate | backend/app/market.py:282-301 | each commodity's totals are the sums over its contracts, commodities in order of appearance |
| Positions.PositionSummary | backend/app/market.py:273-316 | one position per commodity from those totals, the largest net first |
| PositionReport.ReportMeans | backend/app/market.py:282-316 | one position for each commodity with a valued contract and no other, named by its first, with its price and the rounded sums; long iff more comes in than goes out, short iff less; the largest net first |
| PositionReport.ReportIsClose | backend/app/market.py:238-316 | every position of the report on a list of contracts is the exact one of its commodity up to rounding |
| Positions.EachContractOnce | backend/app/market.py:283-301 | the open-contract counts add up to the valued contracts |
| Positions.RoundingBound | backend/app/market.py:255-316 | long, short, net and unrealised are within 0.005(n+1) of the exact sums over the contracts, and the n contracts are counted |
| Positions.SwappingSidesMirrors | backend/app/market.py:260 | taking the other side of every contract negates net and unrealised and exchanges long with short, in the same order |
| Rounding.CentsError | backend/app/market.py:267 | rounding to cents moves a figure by at most half a cent |
| Rounding.HalfEvenIff | backend/app/market.py:264-267 | the nearest integer, and of two equally near the even one, and no other |
| Rounding.AwayFromZeroIff | backend/app/models.py:108-110 | a stored figure is the nearest, and of two equally near the one further from zero, and no other |
| Rounding.CentsOdd | backend/app/market.py:311-313 | rounding to cents commutes with negation |
| Rounding.NumericSeparates | backend/app/models.py:108-110 | figures a cent apart stay in order in a two-place column |

## Left out

- Numbers are exact reals with the rounding written out: floating-point error, Decimal's 28-digit context, NaN and infinities are not modelled.
- HTTP, authentication, signatures and JSON parsing; the SQL gate, entity resolution, confidence heuristics and prompt building of `/query`.
- `graph.summary`, `latest_prices`, `load_open_contracts`, the sync calls, the other risk rules, alert titles and recommendations: only easy members.
- NodeIds.RoundTrip: printing a key of more than 4300 digits, which Python 3.12 refuses too, is modelled as giving its digits; row ids are far shorter.
- RateLimit.SlidingWindow.Allow: a call is one atomic step on a clock that never goes back; threads racing inside it are not modelled.
- Alerts.AlertTable.UpsertAlerts: a scan is one transaction, and rows are keyed by fingerprint rather than id; two scans at once are not modelled.
- Webhooks.EveryRunKeeps: customers, commodities, facilities and open contracts stay fixed while events are handled; a failing final commit is a crash, and any other failed write (a value too wide for its column, say) is `writes == false`.
- WebhookRuns.OneRowPerBody: the digest is any function of the bytes; that different bodies have different digests is not claimed.
- Indexing.IndexAgreesWithFlags: the embedder is deterministic, a collection of the wrong dimension counts as a failure to embed, and `delete_collection`, which nothing calls and after which flags would be wrong, is not a step.
- Indexing.VersionsCount: an upload is one step here, so that two uploads of one name never overlap; Versions.VersionsIff covers those that do.
- Reindexing.VectorIndex.Upload: what extraction makes of the bytes is an input, and the object store's contents and the checks on name, type and size are not modelled; ids are fresh, as a sequence gives them.
- Reindexing.VectorIndex.Reindex: the documents are taken in any order, and the final count of vectors in the store is not modelled.
- Runs.RunTable.Execute: duration, item count and detail are not modelled; rows with equal start times may be kept in any order.
- Scheduler.RunForever: sleeping takes exactly the heartbeat, agents are known by their position, and the startup `tick` and the Celery schedule are not modelled.
- Scheduler.RunIsPunctual: with runs that raise, only the spacing and the heartbeat's pause are claimed; the rest of an aborted tick is skipped, so no lateness bound holds.
- Spend.AuditTrail.HybridQuery: retrieval, prompts and the per-user limiter ahead of the guard are not modelled; the cost of the model calls is an input.
- Spend.SpendBound: costs are bounded by c and not negative, and time never goes back.
- Duplicates.DuplicateInvoices: amounts are whole cents and dates whole days; the digest of a fingerprint is the pair of numbers it is made from.
- Positions.SwappingSidesMirrors: the price, customer and other display fields of a contract row are carried along, not modelled.
