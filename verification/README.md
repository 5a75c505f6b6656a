# Supply-chain backend: verified models

Dafny models of seven parts of the backend, with proofs about every input, every run or every reachable state.
Database tables and Redis structures are sequences, sets and maps; `f64` is `real`; each service call is one atomic
step unless stated otherwise. Components whose source changes state step by step are classes whose methods are
proved equal to one step of a specification function. Each class has an invariant (`Valid()`, and
`Sound` for a ballot) that every whole service call keeps; methods that are one statement or loop within a call
state what they change. The theorems are about all runs of those calls.
Verify with `dafny verify dfyconfig.toml`.

| part | files |
|---|---|
| Predictive routing graph: propagation, scoring, alerts, tables | `RouteGraph`, `Propagation`, `Scoring`, `Alerts`, `RouteRegistry`, `RoutingService` |
| Redis worker pool: a protocol of interleaved steps | `WorkerPool`, `RedisWorkerPool` |
| Audit hash chain under logging, purging and account deletion | `AuditChain`, `AuditHistory`, `AuditService` |
| Multi-signature voting | `MultiSig` |
| Fixed-window rate limiter | `RateLimit` |
| Carbon marketplace; product and statistics caches | `CarbonMarket`, `ProductCache` |
| Sequence algorithms: rule list, CSV, gap filling, metrics window | `RuleEngine`, `Csv`, `TimeSeries`, `Monitoring` |

## Properties that fail, and exactly when

* **Edge counts.** Counts equal the stored planned paths iff every creation named a product that existed then and no
  deleted product still had a stored route (`RouteRegistry.CountsMatchIffNothingLost`). There are two ways to lose a
  path. `create_shipment_route` raises counts before it inserts the route row, without a transaction, and the insert
  fails for an unknown product. And deleting a product deletes its route rows by cascade while the edges keep their
  counts (`RouteRegistry.RefusedCreationMiscounts`, `RouteRegistry.ProductDeletionMiscounts`). In every run the lost
  uses are accounted for exactly (`RouteRegistry.RunKeepsInvariant`).
* **Purged audit log.** After logs and purges the chain verifies iff its oldest surviving record has no previous
  hash (`AuditChain.VerifiesIffUncut`). Any purge that removes some but not all hashed records breaks it at index 0.
* **Account deletion.** `audit_logs.user_id` and `audit_logs.actor_api_key_id` are `ON DELETE SET NULL` and part of
  the hashed payload, and a user's API keys are deleted with the user. Deleting a user breaks a valid chain iff some
  hashed record names the user or one of the user's keys, at the first such record
  (`AuditChain.UserDeletionBreaksIffNamed`; a failing input is `AuditChain.DeletedUserBreaksChain`). Over whole
  histories a chain verifies iff no purge has cut it since it was last empty and no deletion has named a record that
  is still in it (`AuditHistory.VerifiesIffUncutAndUnnamed`). No service call of the backend deletes a user or a
  key, so this takes a deletion made in the database itself.
* **Both vote thresholds.** Counts are taken `as u32`. Approval and rejection can both be reached iff there are at
  least 2^32 signers (`MultiSig.ExclusiveIffCountFits`).
* **Gap filling.** `succ_opt().unwrap_or(end_date)` never passes an end that is the calendar's last date: the loop
  ends iff there is nothing to fill or the end is earlier (`TimeSeries.EndsIffNotLastDay`). For counts, which are not
  negative, totals are preserved iff every in-range point that a later point of its date replaces has count zero
  (`TimeSeries.TotalPreservedIffSupersededAreZero`). Counts of both signs may cancel
  (`TimeSeries.ReplacedCountsMayCancel`).
* **Rule conditions.** Values of different kinds, and kinds without an order, compare as equal. An `equals` condition
  holds iff the values are equal or cannot be compared (`RuleEngines.EqualsHoldsIff`), so a missing field, which reads
  as null, equals every value (`RuleEngines.MissingFieldEqualsAnything`).
* **CSV.** An empty row is written as an empty line, which reads as one empty field, and `csv_escape` does not quote
  a field for a carriage return, which section 2 of RFC 4180 keeps out of unquoted fields. The text reads back iff
  neither the header nor any row is empty and, for a reader that refuses such fields, every field with a carriage
  return also has a comma, quote or newline (`Csv.ReadsBackIff`).
* **Retirement.** A listed credit can be retired while its trade stays open; a later purchase makes it `sold`.
  Retirement is permanent iff the credit has no open trade (`CarbonMarket.RetiredForGoodIffNoOpenTrade`), and a
  retired credit with one is reachable (`CarbonMarket.RetiredWithOpenTradeIsReachable`).
* **Account figures.** Writes to users and keys do not invalidate the cached statistics. After any run the figures
  read are the tables' iff nothing has filled the cache since it was cleared, or the totals when it was last filled
  equal the current ones (`ProductCache.AccountFiguresAreOfLastFill`).

## Where the code and its documentation disagree

* Worker queue: comments say the highest priority runs first. The score is `-priority` and the pop is `zpopmax`, so
  the smallest `priority` runs first; the model follows the code (`WorkerPool.PopTakesLeastPriority`).
* `formal_verification/auth_prusti.rs` annotates approvals and rejections with subset invariants that are
  tautologies (every set is contained in itself, or not). `MultiSig.Sound` states the real ones.
* `compute_score` is documented as dividing deviations by the planned hops; the code divides by five.
* `propagate_graph_signals` is documented as taking the mean of the neighbours; the code takes 0.8 of it.
* `generate_alert` says it skips when an open alert of the same type exists; the code skips for an open alert of any
  type (`Alerts.IsMuted`).
* `rule_engine.rs` compares an `Ordering` with the integer 0; it is read as less, equal or greater.

## Model

The rows marked **Main** are the main results; the others are their parts, partners and methods.

| member | source | states |
|---|---|---|
| RouteGraphs.FindEdgeIsFirst | backend/src/models/predictive_routing.rs:205-209 | The edge row returned is the first with the ordered pair. |
| RouteGraphs.NeighboursAreFarEnds | backend/src/models/predictive_routing.rs:190-203 | Neighbours are, in edge order and once for each edge, the existing far ends of the edges that touch the node in either direction. |
| RouteGraphs.NeighboursCorrespond | backend/src/models/predictive_routing.rs:190-203 | Graphs of one shape find a node's neighbours, one per touching edge with an existing peer, at the same positions whatever the signals. |
| Propagation.RoundsNeverDecrease | backend/src/services/predictive_routing_service.rs:679-701 | **Main.** Over any number of rounds no signal decreases and none leaves [0, hi]. |
| Propagation.MaximumIsConserved | backend/src/services/predictive_routing_service.rs:679-701 | **Main.** With non-negative signals a value is the graph's maximum before any number of rounds iff it is afterwards. |
| Propagation.RoundsMonotone | backend/src/services/predictive_routing_service.rs:679-701 | Raising signals beforehand never lowers any signal after k rounds. |
| Propagation.NearHasWalk | backend/src/models/predictive_routing.rs:190-203 | A node within n hops of a signalled node has a walk of neighbours to one. |
| Propagation.WalkIsNear | backend/src/models/predictive_routing.rs:190-203 | The converse: every such walk puts its start within n hops. |
| Propagation.LabelBoundsSignal | backend/src/services/predictive_routing_service.rs:679-701 | For every 1-Lipschitz labelling that is zero on signalled nodes, signals stay at most 0.8^label of the initial maximum. |
| Propagation.DistanceIsLabel | backend/src/models/predictive_routing.rs:190-203 | Hop distance from the signalled nodes, cut off anywhere, is such a labelling. |
| Propagation.SignalDecaysWithDistance | backend/src/services/predictive_routing_service.rs:679-701 | **Main.** A node at least d hops from every signalled node never exceeds 0.8^d times the initial maximum, for every graph and number of rounds. |
| Propagation.SilentBeyondHorizon | backend/src/services/predictive_routing_service.rs:679-701 | **Main.** After k rounds every node further than k hops is still exactly zero. |
| Propagation.PositiveIffWithinHorizon | backend/src/services/predictive_routing_service.rs:679-701 | **Main.** With non-negative signals, after k rounds a signal is positive iff a signalled node lies within k hops. |
| Propagation.WrittenSignal | backend/src/services/predictive_routing_service.rs:682-697 | One round writes for a node the larger of its own signal and 0.8 of its neighbours' mean, and leaves a node without neighbours as it is. |
| Propagation.SignalArrivesAlongWalk | backend/src/services/predictive_routing_service.rs:679-701 | **Main.** Lower bound: along a walk of k hops, k rounds bring at least the last stop's signal, taken 0.8 times at each step and divided by each earlier stop's number of neighbours, to the first stop. |
| Propagation.NewSignalIgnoresLoadOrder | backend/src/services/predictive_routing_service.rs:682-689 | The value written for a node is the same for every load order of both tables. |
| Propagation.PropagateGraphSignals | backend/src/services/predictive_routing_service.rs:681-701 | **Main.** Writing row by row while reading a snapshot loaded in any order equals the simultaneous update of the table. |
| Scoring.CompositeBetweenSubScores | backend/src/services/predictive_routing_service.rs:386-402 | **Main.** The composite lies between the least and greatest sub-score, so its final clamp changes nothing. |
| Scoring.AlertNeedsCorroboration | backend/src/services/predictive_routing_service.rs:391-404 | No high or critical score rests on one sub-score: what remains without any one of them is bounded below. |
| Scoring.ZScoreMeasuresLateness | backend/src/services/predictive_routing_service.rs:465-477 | The z-score feature is elapsed less planned time, counted in the largest of a tenth of the planned time and every edge's deviation; zero when no time is planned. |
| Scoring.TimeFeatures | backend/src/services/predictive_routing_service.rs:457-462 | Elapsed and planned time run from departure, or creation if there is none, in whole minutes. |
| Scoring.LegFeatures | backend/src/services/predictive_routing_service.rs:508-520 | With a leg ahead being the edge row found for two consecutive stops from the current node on: the delay feature is the largest rate on one, and disruption holds iff one is disrupted. |
| Scoring.SensorFeature | backend/src/services/predictive_routing_service.rs:527-532 | The sensor feature is the largest signal of a visited node that still exists, or zero. |
| Scoring.PathFeatures | backend/src/services/predictive_routing_service.rs:485-494 | The deviation feature is the number of visited stops that were not planned; completion is visited over planned stops. |
| Scoring.NeighbourFeature | backend/src/services/predictive_routing_service.rs:496-505 | The neighbour feature is the mean of the current node's neighbours, zero without any; without a current node the graph features are zero. |
| Scoring.PathScoreIs | backend/src/services/predictive_routing_service.rs:392-394 | Deviations count a fifth each, a disruption ahead three tenths, and the path score stops at one. |
| Scoring.OtherScoresAre | backend/src/services/predictive_routing_service.rs:391-396 | The temporal, sensor and graph sub-scores in terms of their features. |
| Scoring.CompositeIsWeighted | backend/src/services/predictive_routing_service.rs:398-404 | Of twenty parts lateness has seven, the path five, sensors and neighbours four each; the four levels split the composite at 0.35, 0.60 and 0.85. |
| Scoring.FeaturesMonotone | backend/src/services/predictive_routing_service.rs:496-532 | Raising signals can only raise the two signal features and moves no other. |
| Scoring.ScoreMonotoneAfterRounds | backend/src/services/predictive_routing_service.rs:386-422 | **Main.** Raising signals lowers no shipment's composite score, at once or after any number of rounds. |
| Scoring.ScoreGrowsWithRounds | backend/src/services/predictive_routing_service.rs:95-117 | With non-negative signals propagation itself never lowers a score. |
| Scoring.ScoreGrowsWithTime | backend/src/services/predictive_routing_service.rs:458-477 | The passing of time alone never lowers a score. |
| Alerts.OpenAlertsAreSpaced | backend/src/services/predictive_routing_service.rs:584-606 | **Main.** After any run of scores, acknowledgements, resolutions and route deletions, whatever the clock did, no alert follows a still open one of its route within the hour. |
| Alerts.HighScoreHasAlert | backend/src/services/predictive_routing_service.rs:105-109 | A kept score of at least 0.60 leaves its route with an open alert of the last hour; a lower score, or an open alert of the last hour, leaves the alerts as they were. |
| Alerts.AlertIsRaisedIff | backend/src/services/predictive_routing_service.rs:105-109 | A kept score raises an alert iff it is at least 0.60 and every open alert of its route is at least an hour old. |
| Alerts.NewAlertIs | backend/src/services/predictive_routing_service.rs:653-674 | The alert raised is appended open, about its route, with its score, time and kind. |
| Alerts.ScoreIsKept | backend/src/services/predictive_routing_service.rs:547-582 | Every score is kept, last, with its route and time, whether or not it raises an alert. |
| Alerts.AlertIdsStayFresh | backend/src/services/predictive_routing_service.rs:653-663 | After any run alert ids are distinct. |
| Alerts.DeletedRoutesLeaveNothing | backend/migrations/20260622000000_add_predictive_routing.sql:65 | The scores and alerts of deleted routes go, all others stay. |
| Alerts.AlertTypeMeans | backend/src/services/predictive_routing_service.rs:606-648 | Critical alerts are exactly the critical scores, and a predicted delay has a temporal sub-score above 0.31. |
| Alerts.KindIsFirst | backend/src/services/predictive_routing_service.rs:606-648 | A critical score, else a high sensor score, else a high path score, else delay names the alert and its severity. |
| Alerts.StatusIsSet | backend/src/services/predictive_routing_service.rs:212-254 | Acknowledging and resolving set the named alert's status and change no other. |
| RouteRegistry.KeyIsStable | backend/src/services/predictive_routing_service.rs:752-755 | A stored key normalises to itself, for ASCII locations. |
| RouteRegistry.TrimIsTrimmed | backend/src/services/predictive_routing_service.rs:754 | Trimming takes off exactly the ASCII white space around a location. |
| RouteRegistry.SameKeyIff | backend/src/services/predictive_routing_service.rs:752-755 | Two locations share a key iff, white space around them aside, they differ only in case and separators, for ASCII. |
| RouteRegistry.EdgeUpsertedCounts | backend/src/services/predictive_routing_service.rs:724-742 | An upsert adds one to exactly the count of its ordered pair. |
| RouteRegistry.RouteCreatedCounts | backend/src/services/predictive_routing_service.rs:48-93 | A creation raises every ordered pair's count by its occurrences in the planned path, stored or not. |
| RouteRegistry.RunKeepsInvariant | backend/src/services/predictive_routing_service.rs:48-93 | **Main.** After any run of creations, position updates, propagations and product additions and deletions: unique ids, keys and pairs, existing endpoints, signals in [0, 1], every count equal to stored plus lost uses. |
| RouteRegistry.ProductsAfter | backend/src/services/product.rs:34-150 | A product exists after an operation iff it did before or was added by it, and was not deleted by it. |
| RouteRegistry.RoutesWithoutAre | backend/migrations/20260622000000_add_predictive_routing.sql:45 | Deleting a product leaves exactly the other products' routes, in order. |
| RouteRegistry.CountsMatchIffNothingLost | backend/src/services/predictive_routing_service.rs:55-90 | **Main.** Every count equals its pair's occurrences across stored planned paths iff every creation named a product existing then and no deleted product still had a stored route. |
| RouteRegistry.RefusedCreationMiscounts | backend/src/services/predictive_routing_service.rs:66-90 | Failing input: one creation for a product that does not exist. |
| RouteRegistry.ProductDeletionMiscounts | backend/migrations/20260622000000_add_predictive_routing.sql:45 | Failing input: a stored route whose product is deleted. |
| RouteRegistry.PlannedPathsAreWalks | backend/src/services/predictive_routing_service.rs:55-67 | **Main.** Every step of every stored planned path joins existing nodes by an existing, counted edge. |
| RouteRegistry.PathFollowsRequest | backend/src/services/predictive_routing_service.rs:52-64 | The planned path visits origin, waypoints in order and destination, each at the node of its key. |
| RouteRegistry.NewRouteStartsAtOrigin | backend/src/services/predictive_routing_service.rs:69-87 | A stored route is appended in transit, at the node of its origin, with its planned path and requested times and nothing visited. |
| RouteRegistry.PositionUpdateMoves | backend/src/services/predictive_routing_service.rs:142-164 | An update moves exactly the named route to the reported place, extends its actual path by it, and changes nothing else of it. |
| RouteRegistry.SensorReadingMerged | backend/src/services/predictive_routing_service.rs:166-180 | A reading raises its node's signal to the larger of old and clamped new and leaves every other node as it was. |
| RouteRegistry.SensorReadingAtNewPlace | backend/src/services/predictive_routing_service.rs:166-180 | A node the reading's location has only now been given carries the clamped reading. |
| RoutingServices.RoutingService.UpsertEdge | backend/src/services/predictive_routing_service.rs:724-742 | The pair's count rises by one, in its row or a new one, every other pair's stays, and pairs stay unique. |
| RoutingServices.RoutingService.RegisterPath | backend/src/services/predictive_routing_service.rs:52-64 | Upserting the endpoints and then every stop and leg gives the specified tables and path. |
| RoutingServices.RoutingService.RegisterLegs | backend/src/services/predictive_routing_service.rs:55-64 | The loop over waypoints with its moving previous id computes the specified legs. |
| RoutingServices.RoutingService.CreateShipmentRoute | backend/src/services/predictive_routing_service.rs:48-93 | The call is one Create step and keeps the invariant; a route is returned iff stored, and is the row appended. |
| RoutingServices.RoutingService.UpdatePosition | backend/src/services/predictive_routing_service.rs:142-185 | The call is one Update step and keeps the invariant. A summary is returned iff the route exists; it is the route's score on the new tables, and is kept and alerted on as specified. |
| RoutingServices.ActiveRoutesAre | backend/src/services/predictive_routing_service.rs:440-449 | The routes scored are exactly those in transit, in order. |
| RoutingServices.RoutingService.ScoreAllInTransit | backend/src/services/predictive_routing_service.rs:98-117 | Every active route is scored on the snapshot before propagation, kept and alerted on in turn; the call is one Propagate step and keeps the invariant. |
| RoutingServices.RoutingService.AcknowledgeAlert | backend/src/services/predictive_routing_service.rs:212-236 | The named alert is acknowledged, an unknown id reported, and the invariant kept. |
| WorkerPool.StepKeeps | backend/src/services/redis_workers.rs:146-266 | Every step keeps: each enqueued id located once, permits accounted for, run counts within what retries allow. |
| WorkerPool.RunKeeps | backend/src/services/redis_workers.rs:146-266 | The invariant holds in every state reachable by any interleaving. |
| WorkerPool.ExactlyOnePlace | backend/src/services/redis_workers.rs:101-266 | **Main.** Each enqueued id is in exactly one of queue, flight and results, and nothing else is in any. |
| WorkerPool.NeverTwice | backend/src/services/redis_workers.rs:269-285 | **Main.** No id ever has two results, two queue entries or two tasks in flight. |
| WorkerPool.PermitsNeverExceeded | backend/src/services/redis_workers.rs:155-191 | **Main.** Permits in use never exceed the configured number and none is lost. |
| WorkerPool.HandlerRunsBounded | backend/src/services/redis_workers.rs:212-254 | **Main.** A handler runs at most max(0, max_retries - retry_count) + 1 times per enqueued task. |
| WorkerPool.FinishedAttempt | backend/src/services/redis_workers.rs:222-259 | A failed attempt is requeued iff retries are left; a failure is stored only after the whole run budget, other outcomes at once, each as the output or an error. |
| WorkerPool.UnhandledAttempt | backend/src/services/redis_workers.rs:260-263 | A task without a handler is answered with the error "No handler" at once and nothing runs. |
| WorkerPool.PopTakesLeastPriority | backend/src/services/redis_workers.rs:106-168 | The pop takes exactly the queued tasks of least `priority`. |
| WorkerPool.MeasureDecreases | backend/src/services/redis_workers.rs:153-193 | Every step the pool takes by itself strictly lowers one measure; an empty poll needs an empty queue. |
| WorkerPool.AdvancingRunsAreFinite | backend/src/services/redis_workers.rs:153-193 | **Main.** A run of such steps is no longer than the measure it started with. |
| WorkerPool.ProductiveStepsBounded | backend/src/services/redis_workers.rs:153-193 | Without enqueues, pops, finishes and releases together number at most the remaining work, idle polls allowed. |
| WorkerPool.SomeStepAdvances | backend/src/services/redis_workers.rs:153-193 | **Main.** While work remains and a loop lives, some step lowers the measure: no deadlock. |
| WorkerPool.DrainedMeansAnswered | backend/src/services/redis_workers.rs:230-262 | With no work left every enqueued task has its result. |
| WorkerPool.RestMeansAnswered | backend/src/services/redis_workers.rs:153-266 | **Main.** A reachable pool with permits and a live loop that can take no step of its own has a result for every enqueued task. |
| WorkerPool.NoPermitsNoResults | backend/src/services/redis_workers.rs:62-72 | A pool configured with no permits never stores a result. |
| WorkerPool.StoppedPoolWindsDown | backend/src/services/redis_workers.rs:95-160 | A stopped pool takes at most one more task for each loop already past its test. |
| WorkerPool.StartAndStop | backend/src/services/redis_workers.rs:81-98 | Starting sets the pool running with one more loop; stopping only unsets it. |
| WorkerPool.LoopHead | backend/src/services/redis_workers.rs:154 | At its head a loop goes on while the pool runs and leaves once it is stopped. |
| WorkerPool.LoopsAreConserved | backend/src/services/redis_workers.rs:153-193 | One polling loop comes with each start and one goes when it finds the pool stopped; no other step changes their number. |
| RedisWorkers.RedisWorkerPool.EnqueueTask | backend/src/services/redis_workers.rs:101-117 | The call is one Enqueue step for every task, and keeps the invariant when its id is new. |
| RedisWorkers.RedisWorkerPool.Poll | backend/src/services/redis_workers.rs:164-191 | A task is popped iff the queue is not empty, has the top score and keeps the permit; otherwise the permit returns. The invariant is kept. |
| RedisWorkers.RedisWorkerPool.ProcessTask | backend/src/services/redis_workers.rs:198-285 | The call is one Finish step, for every verdict and for a missing handler, and keeps the invariant. |
| AuditChain.StoreReloadRoundTrip | backend/src/services/audit_service.rs:335-358 | **Main.** Storing an event and reloading it gives the event back. |
| AuditChain.AbsentColumnsReload | backend/src/services/audit_service.rs:341-353 | What a record without the newer columns reloads as. |
| AuditChain.PayloadIsEvent | backend/src/services/audit_service.rs:463-481 | Every field of the hashed payload is the event's field of that name. |
| AuditChain.VerifyFindsFirstBreak | backend/src/services/audit_service.rs:276-320 | Verification accepts exactly the valid chains and otherwise reports the first record whose link or hash is wrong. |
| AuditChain.HashCoversEvent | backend/src/services/audit_service.rs:462-486 | Two hashes under a key are equal iff the previous hashes and all fields but address and user agent are. |
| AuditChain.SubsequenceVerifiesIffPrefix | backend/src/services/audit_service.rs:276-320 | **Main.** A subsequence of a valid chain verifies iff it is a prefix; otherwise `checked` is where it first departs. |
| AuditChain.SameLastHashSameEvents | backend/src/services/audit_service.rs:276-320 | **Main.** The same last hash fixes every event of the chain, apart from addresses and user agents. |
| AuditChain.RunKeeps | backend/src/services/audit_service.rs:142-200 | After any run of logs and purges the hashed records are a contiguous, correctly hashed stretch of a chain. |
| AuditChain.LogsAlwaysVerify | backend/src/services/audit_service.rs:142-200 | **Main.** Any run of logs verifies, with every record checked, also behind rows older than hashing. |
| AuditChain.VerifiesIffUncut | backend/src/services/audit_service.rs:267-320 | After logs and purges the chain verifies iff its oldest record has no previous hash; otherwise it fails at index 0. |
| AuditChain.PartialPurgeFailsAtZero | backend/src/services/audit_service.rs:267-274 | Purging a non-empty proper prefix makes verification fail at index 0, naming the oldest survivor; purging none or all does not. |
| AuditChain.UserDeletionBreaksIffNamed | backend/migrations/20260428000000_enhance_audit_logs.sql:8 | Deleting a user, and the user's API keys with it, breaks a valid chain iff a hashed record names the user or one of the keys, at the first such record. |
| AuditChain.DeletedUserBreaksChain | backend/migrations/20240102000000_add_financial_tables.sql:91 | Failing input: an event of a user is logged and the user deleted. |
| AuditChain.ApiKeyDeletionBreaksIffNamed | backend/migrations/20260428000000_enhance_audit_logs.sql:8 | The same for deleting one API key. |
| AuditHistory.VerifiesIffUncutAndUnnamed | backend/src/services/audit_service.rs:276-320 | **Main.** After any run of logs, purges and account deletions the chain verifies iff no purge has cut it since it was last empty and no deletion has named a record still in it; otherwise it fails at the first record cut off or cleared. |
| AuditServices.AuditService.Log | backend/src/services/audit_service.rs:142-200 | Enabled, the call is one Log step on the sanitised event and returns the new row; disabled, nothing changes. |
| AuditServices.AuditService.VerifyChain | backend/src/services/audit_service.rs:276-320 | The loop's answer is `valid` iff the stored chain is valid; for a table with a history, iff the history neither cut the chain nor named a record still in it. |
| MultiSig.ReachableIsSound | formal_verification/auth_prusti.rs:232-282 | **Main.** In every reachable state approvals and rejections are disjoint, duplicate-free subsets of the signers. |
| MultiSig.NeverBothReached | formal_verification/auth_prusti.rs:286-301 | Both thresholds are never reached, so executing needs approval alone. |
| MultiSig.OutcomesArePermanent | formal_verification/auth_prusti.rs:247-295 | A reached threshold stays reached whatever votes follow. |
| MultiSig.FullVoteDecides | formal_verification/auth_prusti.rs:286-295 | **Main.** Once all signers have voted exactly one threshold is reached. |
| MultiSig.RejectedIffHopeless | formal_verification/auth_prusti.rs:292-295 | **Main.** The rejection threshold holds iff no continuation can reach approval. |
| MultiSig.ExclusiveIffCountFits | formal_verification/auth_prusti.rs:286-295 | **Main.** Some votes reach both thresholds iff there are at least 2^32 signers. |
| MultiSig.MultiSigThreshold.AddApproval | formal_verification/auth_prusti.rs:247-256 | The call is one Cast, keeps soundness and returns true iff the signer may still vote. |
| MultiSig.MultiSigThreshold.AddRejection | formal_verification/auth_prusti.rs:273-282 | The same for rejections. |
| RateLimit.EffectiveLimit | backend/src/middleware/rate_limit.rs:31-44 | The limit is the tier's or the custom one, positive, at most the tier's, and at most a positive custom limit. |
| RateLimit.CountersExact | backend/src/middleware/rate_limit.rs:63-73 | A stored counter equals its minute's requests and outlives the minute; a missing one belongs to a minute that is over or empty. |
| RateLimit.RunningWindowNeverReset | backend/src/middleware/rate_limit.rs:68-73 | **Main.** The 60-second expiry never resets a counter whose minute is running. |
| RateLimit.CounterLivesAMinute | backend/src/middleware/rate_limit.rs:68-73 | A window's counter lives for exactly sixty seconds from its first request. |
| RateLimit.AdmittedByRank | backend/src/middleware/rate_limit.rs:63-77 | A request is admitted iff fewer than the limit of its key and minute came before it. |
| RateLimit.MinuteAdmitsExactly | backend/src/middleware/rate_limit.rs:56-77 | **Main.** Each minute of each key admits exactly min(requests, limit), at every point of every timeline. |
| RateLimit.TierMinute | backend/src/middleware/rate_limit.rs:31-36 | A key without a limit of its own gets 60, 300, 1000 or 5000 requests through in a minute, by its tier. |
| RateLimit.SpanAdmitsAtMostTwice | backend/src/middleware/rate_limit.rs:56-77 | **Main.** No 60-second span admits more than twice the limit. |
| RateLimit.SpanBoundIsTight | backend/src/middleware/rate_limit.rs:56-77 | For every limit some timeline reaches that bound. |
| RateLimit.RateLimiter.Handle | backend/src/middleware/rate_limit.rs:56-106 | A request is allowed iff fewer than the limit came before it in its minute, and is told the remaining quota and the next minute. |
| CarbonMarket.MarketIsConsistent | backend/src/services/carbon.rs:241-364 | **Main.** In every run a credit has at most one trade ever, an open trade's seller owns its credit, and no trade exceeds its credit. |
| CarbonMarket.TradesSettleOnce | backend/src/services/carbon.rs:303-364 | **Main.** A trade settles at most once, for at most the listed quantity, for quantity times listed price and a fee of 2.5% of that, never to its seller. |
| CarbonMarket.TradesArePriced | backend/src/services/carbon.rs:262-354 | In every run every trade's amount is its quantity times its price, and its fee 2.5% of that once settled. |
| CarbonMarket.GenerationMakes | backend/src/services/carbon.rs:96-163 | Which generations succeed and how others are refused; a successful one makes one pending credit of the eligible quantity for its owner. |
| CarbonMarket.ListingOpens | backend/src/services/carbon.rs:241-300 | Which listings succeed and how others are refused; a successful one opens one trade of the requested quantity and price. |
| CarbonMarket.PurchaseSettles | backend/src/services/carbon.rs:303-364 | Which purchases succeed and how others are refused; a successful one settles its trade and hands the credit over. |
| CarbonMarket.RetirementKeepsReason | backend/src/services/carbon.rs:205-236 | Which retirements succeed and how others are refused; a successful one keeps the reason. |
| CarbonMarket.CreditQuantityFixed | backend/src/services/carbon.rs:132-163 | A credit never disappears and keeps its quantity. |
| CarbonMarket.SupplyConserved | backend/src/services/carbon.rs:122-364 | **Main.** Over every run the total quantity of all credits grows by exactly the eligible amounts generated. |
| CarbonMarket.ChangesAreAuthorised | backend/src/services/carbon.rs:205-364 | A credit changes only when its owner lists or retires it or someone else buys its open trade and becomes owner. |
| CarbonMarket.AtMostFourOperations | backend/src/services/carbon.rs:205-364 | **Main.** In every run a credit accepts at most four successful list, purchase and retire operations. |
| CarbonMarket.FourOperationsArePossible | backend/src/services/carbon.rs:205-364 | Four are reached: listed, retired by the seller, bought after all, retired by the buyer. |
| CarbonMarket.RetiredForGoodIffNoOpenTrade | backend/src/services/carbon.rs:205-236 | **Main.** A retired credit stays unchanged in every continuation iff it has no open trade. |
| CarbonMarket.RetiredWithOpenTradeIsReachable | backend/src/services/carbon.rs:205-236 | Generating, listing and retiring a credit reaches a retired credit that a purchase still changes. |
| CarbonMarket.CarbonService.GenerateCredit | backend/src/services/carbon.rs:96-163 | The call is one Generate step, a missing footprint and one below the threshold refused, and keeps the invariant. |
| CarbonMarket.CarbonService.CreateTrade | backend/src/services/carbon.rs:241-300 | The call is one List step, outcome included, and keeps the invariant. |
| CarbonMarket.CarbonService.PurchaseCredit | backend/src/services/carbon.rs:303-364 | The call is one Purchase step, outcome included, and keeps the invariant. |
| ProductCache.RunKeepsCoherent | backend/src/services/product.rs:34-150 | Every run of service calls, entries expiring at any time, keeps both caches in agreement with the tables. |
| ProductCache.ReadsReturnTheTable | backend/src/services/product.rs:66-96 | **Main.** In every run a product read returns what the table holds. |
| ProductCache.ReadIsRightIff | backend/src/services/product.rs:66-96 | Whatever wrote the table, a read is right iff nothing is cached or the cached row is the table's. |
| ProductCache.StatsCountTheTables | backend/src/services/event.rs:134-188 | **Main.** In every run product, active-product and event counts are the tables'. |
| ProductCache.UpdateIsRead | backend/src/services/product.rs:98-138 | After an update the product reads with all eleven given columns and its own id, creation time and creator; the active count moves by its flag. |
| ProductCache.CreationIsRead | backend/src/services/product.rs:34-64 | After a creation the product reads as given and active; a taken id changes nothing. |
| ProductCache.DeletionIsRead | backend/src/services/product.rs:140-150 | After a deletion the product reads as absent and only it and its events are gone. |
| ProductCache.EventIsCounted | backend/src/services/event.rs:27-61 | An event is added iff its product exists, last, and the statistics count it. |
| ProductCache.AccountFiguresAreOfLastFill | backend/src/services/event.rs:134-188 | **Main.** From any coherent start, after any run, the account figures read are the tables' iff nothing has filled the cache since it was cleared, or the totals when it was last filled equal the current ones. |
| ProductCache.LastFillIsLastMiss | backend/src/services/event.rs:134-188 | The fill that counts is the last read that missed: it found nothing cached, and nothing was cleared after it. |
| ProductCache.FiguresDoLag | backend/src/services/event.rs:134-188 | Statistics read and an account added afterwards leave figures that are not the tables'. |
| ProductCache.DeleteKeepsOtherEvents | backend/migrations/20240101000000_create_initial_schema.sql:60 | Deleting a product removes its events and leaves all others, as often and in the order they were. |
| ProductCache.SyncWritesTheTable | backend/src/services/sync.rs:24-48 | Over coherent caches a sync succeeds and its effect does not depend on the cache. |
| ProductCache.SyncRoundTrip | backend/src/services/sync.rs:24-48 | The row then publishes exactly what was synced; activity, creation time and creator survive. |
| ProductCache.SyncTwiceIsSyncOnce | backend/src/services/sync.rs:57-66 | **Main.** Syncing a batch again changes nothing but update stamps, repeated ids included. |
| ProductCache.Backend.GetProduct | backend/src/services/product.rs:66-96 | The call is the specified read, returns the table's row and keeps coherence. |
| ProductCache.Backend.GetGlobalStats | backend/src/services/event.rs:134-188 | The call is the specified read, its product and event counts are the tables', and coherence is kept. |
| ProductCache.Backend.SyncProductFromContract | backend/src/services/sync.rs:24-48 | Read, overlay, then update or create: the specified sync, coherence kept. |
| ProductCache.Backend.SyncBatchProducts | backend/src/services/sync.rs:57-66 | Nothing fails, the table is the batch's, and each result is the row its item left behind in its turn. |
| RuleEngines.StableSortIsStable | backend/src/services/rule_engine.rs:123-127 | Sorting orders by descending priority and keeps each priority's order. |
| RuleEngines.StableSortIsUnique | backend/src/services/rule_engine.rs:123-127 | There is only one such list. |
| RuleEngines.RulesAreSortedSurvivors | backend/src/services/rule_engine.rs:123-136 | After any adds and removes the list is one stable sort of the surviving rules in insertion order, duplicate ids included. |
| RuleEngines.RulesAreSortedRemaining | backend/src/services/rule_engine.rs:123-136 | **Main.** After any history with unique ids the list is one stable sort of the rules added and not removed since, in insertion order. |
| RuleEngines.RemovalTakesTopPriority | backend/src/services/rule_engine.rs:130-136 | A removal takes a rule of the highest priority among those with its id, iff there is one. |
| RuleEngines.RemovalLeavesTheRest | backend/src/services/rule_engine.rs:130-136 | With unique ids a removal leaves every other rule in order. |
| RuleEngines.ComparisonIsOrder | backend/src/services/rule_engine.rs:260-275 | On values of one scalar kind comparison is total, antisymmetric and transitive. |
| RuleEngines.ComparisonIsAntisymmetric | backend/src/services/rule_engine.rs:260-275 | Swapping the values negates the answer; two values compare as equal iff they are equal or are not of one scalar kind. |
| RuleEngines.EqualsHoldsIff | backend/src/services/rule_engine.rs:204 | An `equals` condition holds iff the field equals the value or cannot be compared with it. |
| RuleEngines.ConditionHoldsIff | backend/src/services/rule_engine.rs:200-220 | Each of the eleven operators holds iff the field's value does what it asks: numbers by size, false before true, strings by their first difference. |
| RuleEngines.GroupBySome | backend/src/services/rule_engine.rs:186-197 | A conjunction fails iff some condition fails, a disjunction holds iff some condition holds. |
| RuleEngines.MissingFieldEqualsAnything | backend/src/services/rule_engine.rs:232 | Failing input: a missing product category equals "perishable". |
| RuleEngines.NegationIsExact | backend/src/services/rule_engine.rs:186-220 | Swapping the connective and every operator negates every group, a pattern match, which has no opposite, being negated in the surroundings; groups without patterns are negated in the same surroundings. |
| RuleEngines.RuleEngine.AddRule | backend/src/services/rule_engine.rs:123-127 | The new list is the stable sort of the old one and the rule, and that of the history of calls. |
| RuleEngines.RuleEngine.RemoveRule | backend/src/services/rule_engine.rs:130-136 | The first rule of the id is removed and returned, or nothing happens; the list stays that of the history of calls. |
| RuleEngines.RuleEngine.Evaluate | backend/src/services/rule_engine.rs:144-183 | One result per enabled rule, in list order, each what its rule owes. |
| RuleEngines.EnabledAre | backend/src/services/rule_engine.rs:147-150 | The rules evaluated are exactly the enabled ones, in list order. |
| RuleEngines.ExecutedAre | backend/src/services/rule_engine.rs:166-170 | The names reported are those of the actions that succeeded, in order. |
| RuleEngines.LastErrorIs | backend/src/services/rule_engine.rs:171-174 | The error reported is that of the last action that failed. |
| RuleEngines.ResultReports | backend/src/services/rule_engine.rs:152-179 | A result is about its rule: whether the group holds, and only then what the actions did. |
| Csv.ToCsv | backend/src/utils/aggregation.rs:68-77 | The loop writes the header line and then each row's. |
| Csv.FieldRoundTrip | backend/src/utils/aggregation.rs:80-86 | An escaped field before a separator reads back exactly, or is refused by a strict reader for a carriage return outside quotes. |
| Csv.RecordRoundTrip | backend/src/utils/aggregation.rs:68-86 | A written row reads back exactly, an empty one as one empty field, unless a strict reader refuses one of its fields. |
| Csv.RefusedAfterQuote | backend/src/utils/aggregation.rs:80-86 | The reader refuses text between a closing quote and a separator. |
| Csv.ReadsBackIff | backend/src/utils/aggregation.rs:68-86 | **Main.** Reading the text of escaped fields gives header and rows back iff none of them is empty and, for a strict reader, no unquoted field holds a carriage return. |
| Csv.WritingIsInjective | backend/src/utils/aggregation.rs:68-86 | Different tables without empty rows never produce the same text. |
| TimeSeries.EndsIffNotLastDay | backend/src/utils/aggregation.rs:34-41 | **Main.** The loop ends iff the range is empty or its end is not the calendar's last date. |
| TimeSeries.FillTimeSeriesGaps | backend/src/utils/aggregation.rs:23-44 | **Main.** Whenever it ends, the result is one entry per day of the range in order, with the last count given for the day or zero. |
| TimeSeries.EveryDayOnce | backend/src/utils/aggregation.rs:34-41 | Each day of the range has exactly one entry, at its own position. |
| TimeSeries.NothingToFill | backend/src/utils/aggregation.rs:34 | A range that ends before it starts has no entry. |
| TimeSeries.TotalPreservedIffReplacedSumToZero | backend/src/utils/aggregation.rs:28-44 | The total of the in-range counts is preserved iff the replaced counts sum to zero. |
| TimeSeries.TotalPreservedIffSupersededAreZero | backend/src/utils/aggregation.rs:28-44 | **Main.** For non-negative counts the total is preserved iff every in-range point with a later point of its date has count zero. |
| TimeSeries.ReplacedCountsMayCancel | backend/src/utils/aggregation.rs:28-44 | With counts of both signs it may be preserved though counts were replaced. |
| TimeSeries.DistinctDatesPreserveTotal | backend/src/utils/aggregation.rs:28-44 | With distinct input dates the total is preserved. |
| Monitoring.MetricsAreCurrent | backend/src/monitoring.rs:257-311 | **Main.** After any requests an endpoint's window is its last thousand samples, its count exact and its statistics those of the window. |
| Monitoring.WindowIsLastThousand | backend/src/monitoring.rs:270-275 | The window of a history is its last thousand samples, or all when there are fewer. |
| Monitoring.AverageIsMean | backend/src/monitoring.rs:289-290 | Averaging the sorted copy averages the window. |
| Monitoring.AverageBetween | backend/src/monitoring.rs:289-290 | The average lies between any bounds of the samples. |
| Monitoring.PercentileRank | backend/src/monitoring.rs:292-308 | **Main.** With r = min(w, floor(p w / 100) + 1), a percentile of w samples is one of them, at least r are at most its value and at least w - r + 1 are at least its value. |
| Monitoring.CountsArePositions | backend/src/monitoring.rs:292-308 | The counts in that statement are numbers of samples. |
| Monitoring.PercentilesOrdered | backend/src/monitoring.rs:292-308 | A higher percentile is never lower, so p95 is at most p99. |
| Monitoring.PerformanceMonitor.RecordRequest | backend/src/monitoring.rs:257-311 | The call is the specified update, and the endpoint's metrics are those of its history with the new time. |

## Left out

Routing
- Rounding: signals are `DECIMAL(5,4)` and arithmetic is `f64`; the model uses exact reals, and no NaN.
- Overflow of the `INT` shipment counts and the `i32` deviation count; counts are unbounded.
- The logistic function is any function into (0, 1), increasing where time is concerned; the physics and Monte Carlo models are not modelled.
- RoutingServices.RoutingService.ScoreAllInTransit: does not model the clock moving on during the call; one reading serves all routes.
- Titles, descriptions and recommendations of alerts, the `suppressed` status, score listings and exports; route completion, cancellation, batches and coordinates.
- RouteRegistry.KeyIsStable: does not model Unicode white space and lower-casing; characters beyond ASCII stand for themselves.
- Fresh UUIDs are a counter. Times are whole milliseconds.
- Calls that run at the same time, such as propagation against a position update.

Worker pool
- Redis is reachable, the queue is named `event_processing` (retries go to that literal name), and handlers return or time out; panics and lost connections are not modelled.
- The theorems over runs assume that every enqueued id is new; the methods do not. Results expire after an hour in Redis and do not in the model. Heartbeats are left out.
- The handler's own effects: only its verdict is modelled.

Audit
- The HMAC is symbolic: a free constructor over key, hashed fields and previous hash. Keys, canonical JSON and SHA-256 are not modelled; `changes` is its canonical text, so JSON number normalisation by the database is outside the model.
- Sanitising and redaction are one arbitrary function of the event.
- Creation times strictly increase: ties are broken by random ids in the source. Concurrent appends are not modelled.

Voting and rate limiting
- `ThresholdAuth`, its counters and the other annotated predicates of `auth_prusti.rs`.
- One clock, which does not run backwards, serves the middleware and Redis; Redis errors and a missing key record are not modelled; `u32` counter overflow is not modelled.

Marketplace and caches
- The carbon calculator is an arbitrary quantity. Nothing sets `verified` in the modelled calls, so it occurs only as a starting status. `expires_at` is never checked by the code and is not a field of the model.
- Serial numbers, registry data, market listings and deletions of users or credits.
- Writes by the indexer and failed invalidations; expiry times of cache entries are replaced by expiry at any moment. Ids and creation times of tracking events.
- Listing products and events with filters and pages.

Sequences
- Field lookup by path, text search, patterns and action handlers are parameters of rule evaluation.
- RuleEngines.ComparisonIsOrder: does not model JSON objects or the difference of integers and floats; numbers are reals, so `1` and `1.0` are one value.
- RuleEngines.RuleEngine.Evaluate: does not model execution times.
- The date format is any injective function of the day; day counts are unbounded integers.
- Percentile indices use exact arithmetic for `len * 0.95` and `len * 0.99`.
- `ErrorMonitor`, `reset` and the other helpers of `aggregation.rs`.
- HTTP handlers, routing tables, configuration, smart contracts and the other services.
