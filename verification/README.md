# Usage metering: verified models

The repository meters the use of AI models. A collector on each machine tails log files and delivers
usage events to a server; the server merges them, prices them from dated rate cards, and keeps a
ledger of costs. This project models the parts whose documentation promises something about every
run, and proves those promises, or states exactly when they hold.

| file | what it models |
|---|---|
| `KeepMax.dfy` | the event store and its keep-max merge rule, deduplication of a batch, replays |
| `CollectorProtocol.dfy`, `Collector.dfy` | the delivery protocol as a transition system with crashes, refusals and lost acknowledgements; the collector's methods, each tied to a run of that system |
| `RateCards.dfy`, `RateCardAdmin.dfy`, `RateCardImport.dfy`, `RateCardDigest.dfy`, `RateCardImportRuns.dfy` | price resolution with precedence and dated/undated fallback; creating, closing and importing cards; what a confirmed digest pins down |
| `CostEngine.dfy`, `CostLedger.dfy` | unit quantities, pricing with a status, the one-active-row ledger and the sweep that fills it |
| `Backfill.dfy`, `BackfillVerification.dfy` | the chunked copy of the first usage table into the second, its reversal, and the comparison of the two |
| `IngestClient.dfy` | the TypeScript ingest client: greedy batches, retries, bisection of refused batches |
| `RateLimit.dfy` | the token bucket |
| `ContentScan.dfy`, `PathTexts.dfy` | the recursive scan for content-like keys, and the dotted texts it reports |
| `AgentHierarchy.dfy`, `AgentTree.dfy`, `SessionView.dfy` | the agents of a session on the server, their ordering in the dashboard, and the two together |
| `FloodControl.dfy` | the minimum interval between stored limit snapshots of a stream |
| `Wrappers.dfy`, `Sequences.dfy`, `Ordering.dfy`, `Sorting.dfy` | optional values, concatenations, the order of strings, sorted listings and keyset pagination |

Tables are maps or sequences, each commit is one atomic step, and the network is a nondeterministic
partner. Prices, quantities and the token bucket are exact numbers. `dafny verify dfyconfig.toml`
checks everything.

## What turned out not to hold as documented

Each of these is a theorem: the exact condition, or a concrete counterexample.

- An empty upload queue alone does not mean that the store equals a fault-free run. Of a file read by a
  source that does not deduplicate within a pass, a superseded event can be stored after an abandoned
  replay (`CollectorProtocol.StaleStore`); the exact condition is `CollectorProtocol.ExactlyOnceIff`, and
  the next completed pass repairs it (`CollectorProtocol.ExactlyOnce`). With deduplicating passes, as the
  Claude Code source makes them, the store may run ahead of the offset but never falls back
  (`CollectorProtocol.DedupingNeverFallsBack`).
- A confirmed digest does not pin down what is applied. It covers neither the date of the import nor the
  tier, mode, bracket, start, currency or override of a new row (`RateCardDigest.ConfirmedOnNextDay`,
  `RateCardDigest.ConfirmedWithOtherTier`); what it does cover is `RateCardDigest.AcceptedIff`. On the
  cards that were reviewed, an accepted apply leaves the reviewed table exactly when the rows it applies
  are the reviewed ones (`RateCardDigest.AppliedAsReviewedIff`). A dry run confirmed on a later day is
  accepted exactly when no row then supersedes a card (`RateCardDigest.AcceptedOnLaterDayIff`).
- An import can leave two cards of one grain in force on the same day, because a new row is not checked
  against closed cards that reach its start (`RateCardImportRuns.NewRowMeetsClosedCard`), nor rows against
  each other (`RateCardImportRuns.ImportKeepsNoOverlapIff`).
- The cards in force before the import date can change when a row it applies starts earlier; the engine
  never compares the two dates (`RateCardImport.PastUntouchedIff`). Both of its callers date the rows at
  the import date, and then nothing earlier changes (`RateCardImport.ImportsNeverChangeThePast`).
- The client's accepted and rejected numbers need not add up to the events: the endpoint counts only new
  events as accepted, so a retry after a lost acknowledgement is counted as nothing
  (`IngestClient.RetryIsNotCounted`). The exact condition is `IngestClient.AddUpIff`; where every reply can
  be read it comes to distinct new events and no stored request left unanswered
  (`IngestClient.FreshCallIff`).
- The client's byte limit bounds neither the posted body nor its encoded size: it counts the code units of
  the events without their envelope (`IngestClient.PostedOverLimit`). The exact sizes are
  `IngestClient.BodyLength` and `IngestClient.EncodedBody`.
- Closing a card with a later end date can make it overlap its successor
  (`RateCardAdmin.ExtendingCloseOverlaps`, `RateCardAdmin.CloseKeepsNoOverlapIff`).
- The overlap check refuses some pairs that share no day, namely those with an inverted range
  (`RateCardAdmin.RangesIntersectMeaning`).
- A failing rate lookup is recorded as an `error` status, except the lookup of the reasoning rate, which
  leaves the engine (`CostEngine.ReasoningLookupEscapes`). One such event keeps every sweep that selects
  it from committing, so coverage is eventually complete exactly when there is none
  (`CostLedger.EventualCoverage`).
- The token bucket's advertised delay is enough exactly when tokens refill and the request fits the
  bucket (`RateLimit.AdvertisedDelaySuffices`).
- An agent whose chain of parents runs into a cycle is listed by the server but never shown in the
  dashboard's tree (`SessionView.ShowSession`; `AgentHierarchy.CyclicParents` is such a session).
- Different removed keys can be reported under one dotted path, through a key with a dot
  (`PathTexts.DottedPathsCoincide`; under the program's own test `PathTexts.ProgramReportsTwice`) or one that
  ends like an index (`PathTexts.BracketedPathsCoincide`). A key shares its text with another path exactly
  when it is of one of these kinds (`PathTexts.SharesTextIff`), and where no reported key contains a dot or an
  opening bracket no text is reported twice (`PathTexts.ReportedTextsDiffer`).
- The compatibility view shows a copied row exactly as it was if and only if its `extra` used neither
  `_v1` nor `_backfill` (`Backfill.ViewOfImage`).
- The comparison of the two usage tables sees missing rows whenever the marked rows are true images
  (`BackfillVerification.VerificationMeaning`); with a chunk size of zero it reads nothing and passes.

## Model

| member | source | states |
|---|---|---|
| KeepMax.RevisionEngineIsUpsert | apps/server/src/tokemetry_server/services/revisions.py:106-139 | whatever else the server derives for a row, the live revision engine in keep-max mode changes the events exactly as the upsert rule does, and calls a row a duplicate exactly when the table stays as it is |
| KeepMax.SettledMeaning | apps/server/src/tokemetry_server/db/upsert.py:78-93 | after any stream the stored row of a key is the last event among those of maximal output, and a key is stored exactly when an event had it |
| KeepMax.FoldIsJoin | apps/server/src/tokemetry_server/db/upsert.py:78-93 | merging a stream into a store is, key by key, a comparison of the stored row with the stream's own result |
| KeepMax.RepeatedEventIsRedundant | apps/server/src/tokemetry_server/db/upsert.py:78-93 | an event that occurs again later in the stream can be left out without any effect |
| KeepMax.ReplayAbsorbed | apps/collector/src/tokemetry_collector/runner.py:172-181 | any earlier partial delivery of events that are all delivered again later has no effect on the store |
| KeepMax.DedupeKeepMax | apps/server/src/tokemetry_server/services/ingest.py:51-67 | the dictionary-and-order loop returns the batch's keys in first-seen order with the best event of each |
| KeepMax.DedupeMeaning | apps/server/src/tokemetry_server/services/ingest.py:51-67 | a deduplicated batch has every key of the batch once, in order of first appearance, each with the last event of maximal output |
| KeepMax.DedupePreservesMerge | apps/server/src/tokemetry_server/services/ingest.py:51-67 | deduplicating a batch first does not change what it does to any store |
| KeepMax.BatchBoundariesDoNotMatter | apps/server/src/tokemetry_server/services/ingest.py:171-197 | however a stream is cut into batches, deduplicating and merging each gives the store of the events one at a time |
| KeepMax.ImmediateReplay | apps/server/src/tokemetry_server/services/ingest.py:171-197 | replaying a batch at once changes nothing |
| KeepMax.UsageStore.IngestEvents | apps/server/src/tokemetry_server/services/ingest.py:171-197 | a valid batch merges all its events into the table and reports the distinct ones as accepted; an invalid one changes nothing |
| CollectorProtocol.StepKeepsInv | apps/collector/src/tokemetry_collector/runner.py:153-219 | every commit, crash, refusal, delivery and lost acknowledgement keeps: what the queue still promises for a key is the largest of what the files' committed and unsettled records come to, and what is unsettled will be read again |
| CollectorProtocol.CompletedPassSettles | apps/collector/src/tokemetry_collector/runner.py:172-181 | a completed pass absorbs whatever batches abandoned passes of the same range left behind |
| CollectorProtocol.NoLoss | apps/collector/src/tokemetry_collector/runner.py:172-181 | after any run at all, mid-pass states included and whichever files share keys, every record below the committed offset or enqueued since is covered by a queued event or by the store |
| CollectorProtocol.DrainedStore | apps/collector/src/tokemetry_collector/runner.py:206-219 | after any run that ends with an empty queue the row of a key is what the records of one file come to, and no file's come to a larger one |
| CollectorProtocol.SharedKeys | apps/collector/src/tokemetry_collector/runner.py:153-219 | for keys that several files record: once drained and settled the stored output is the maximum over all files' records below their offsets, and the row is one file's own fold |
| CollectorProtocol.ExactlyOnceIff | apps/collector/src/tokemetry_collector/runner.py:3-8 | with an empty queue, a key that one file records has the row of a run without faults if and only if what abandoned passes enqueued since the last commit is nothing for that key, smaller, or that very row |
| CollectorProtocol.ExactlyOnce | apps/collector/src/tokemetry_collector/runner.py:3-8 | in particular it has when no pass of the file is left unfinished |
| CollectorProtocol.FaultsDoNotShow | apps/collector/src/tokemetry_collector/runner.py:3-8 | two settled runs that have read the same records store the same output for every key, and the same row for every key of one file, whatever crashed or got lost in either |
| CollectorProtocol.DedupingNeverFallsBack | packages/core/src/tokemetry_core/providers/claude_code.py:87-126 | when every pass deduplicates, a drained store never falls back: a key's row is the fold of a prefix of its file that reaches at least to the committed offset, and later drained stores hold that of one at least as long |
| CollectorProtocol.StaleStore | apps/collector/src/tokemetry_collector/runner.py:153-219 | without deduplication it can: a concrete run of one batch size with two abandoned passes ends with an empty queue and a superseded event in the store |
| Collector.CollectorState.GetOffset | apps/collector/src/tokemetry_collector/state.py:77-85 | the stored progress of a file, or none |
| Collector.CollectorState.SetOffset | apps/collector/src/tokemetry_collector/state.py:87-98 | records the progress of one file and changes no other |
| Collector.CollectorState.Enqueue | apps/collector/src/tokemetry_collector/state.py:100-107 | the batch joins the end of the queue with an id above all others |
| Collector.CollectorState.Pending | apps/collector/src/tokemetry_collector/state.py:109-123 | the oldest batches, oldest first, at most the limit |
| Collector.CollectorState.MarkUploaded | apps/collector/src/tokemetry_collector/state.py:125-128 | deleting the oldest batch's id removes that batch and nothing else |
| Collector.CollectorState.BumpAttempts | apps/collector/src/tokemetry_collector/state.py:130-136 | only the retry counter of the one batch changes |
| Collector.WithoutIdMeaning | apps/collector/src/tokemetry_collector/state.py:125-128 | exactly the batches with other ids remain, still in ascending order of id |
| Collector.Chunks | apps/collector/src/tokemetry_collector/runner.py:52-56 | the chunks concatenate to the events, none is empty, all but the last have exactly the batch size |
| Collector.Agent.EnqueueNext | apps/collector/src/tokemetry_collector/runner.py:172-179 | queueing one chunk is one protocol step, after which the objects mirror a reachable state |
| Collector.Agent.CommitFile | apps/collector/src/tokemetry_collector/runner.py:180-181 | and so is committing the offset of a file |
| Collector.Agent.Restart | apps/collector/src/tokemetry_collector/runner.py:3-8 | whatever a stopped process has left, a new one takes over in a reachable state with the same files, offsets, queue and store |
| CollectorProtocol.ReachableIff | apps/collector/src/tokemetry_collector/runner.py:153-219 | the reachable states are exactly those in which some run of the protocol ends |
| Collector.Agent.EnqueueChunks | apps/collector/src/tokemetry_collector/runner.py:172-179 | the chunks join the queue in order, one commit each, and no other file's progress changes |
| Collector.Agent.TailFile | apps/collector/src/tokemetry_collector/runner.py:158-181 | what is queued is exactly what the parser returns for the bytes between the stored offset and the end of the file, in chunks of the batch size; the offset and the listed size are stored, the events and batches counted, and every other file's progress is left alone |
| Collector.Agent.TailUsage | apps/collector/src/tokemetry_collector/runner.py:153-181 | every readable listed file is read from its offset to an end at least as far as when the cycle began, deduplicated exactly if its source does so, and every chunk queued in order; unreadable files are skipped and listed; the counts are the files, events and batches |
| Collector.Agent.PollLimits | apps/collector/src/tokemetry_collector/runner.py:183-204 | one batch joins the queue for each available source that reports something, and the snapshots are counted; nothing else changes |
| Collector.Uploader.Send | apps/collector/src/tokemetry_collector/uploader.py:54-69 | success is reported exactly for a 2xx reply, and then the batch was merged; otherwise it was merged or nothing happened |
| Collector.Agent.UploadHead | apps/collector/src/tokemetry_collector/runner.py:209-219 | one request with the oldest batch: a 2xx reply removes it, anything else leaves it at the head with its retry counter raised |
| Collector.Agent.Drain | apps/collector/src/tokemetry_collector/runner.py:206-219 | requests go out for the queue's batches in order; all replies but the last are 2xx, the last one is not exactly when something is left, and the store holds what was applied in that order |
| CollectorProtocol.CycleStore | apps/collector/src/tokemetry_collector/runner.py:89-98 | with an empty queue, the row of every key whose files have been read is the largest of what these files come to as far as read, covers all they held before, and is the largest of what they hold if they did not grow |
| Collector.Agent.CollectOnce | apps/collector/src/tokemetry_collector/runner.py:89-98 | from any state a run can leave, with files growing meanwhile: what is parsed, queued, uploaded, left over and counted, and, if nothing is left over, the largest rows for every key whose files were all read |
| CollectorProtocol.RowOfOnlyFile | apps/collector/src/tokemetry_collector/runner.py:89-98 | and when one file records the key, exactly what that file comes to |
| RateCards.BestCardIsMaximal | apps/server/src/tokemetry_server/services/pricing_v2.py:132-179 | a card is found whenever one matches, it matches, and no matching card has higher precedence |
| RateCards.BestCardServes | apps/server/src/tokemetry_server/services/pricing_v2.py:143-166 | there is a best card exactly when a stored one has the query's provider, model, unit and mode, is in force on the day, and has the asked-for tier and bracket or none |
| RateCards.WinnerByRule | apps/server/src/tokemetry_server/services/pricing_v2.py:169-179 | rule by rule: exact tier, then exact bracket, then priority, then override, then the later start |
| RateCards.BaseModelIdMeaning | packages/core/src/tokemetry_core/pricing/table.py:37-39 | exactly the ids that end in a hyphen and eight digits change, and they lose just that |
| RateCards.FallbackRule | apps/server/src/tokemetry_server/services/pricing_v2.py:77-129 | the model's own best card; without one, a dated id takes its base's and an undated id that of its newest snapshot that has one |
| RateCards.IsSnapshotMeaning | apps/server/src/tokemetry_server/services/pricing_v2.py:86-103 | the snapshots of an undated id are the provider's ids that consist of it, a hyphen and a date |
| RateCards.ResolveRate | apps/server/src/tokemetry_server/services/pricing_v2.py:106-129 | the search loop finds the first candidate model with a card, that card serves the query, and the rate has its price, id, currency and source; there is none exactly when no candidate has a card |
| RateCards.SnapshotsSorted | apps/server/src/tokemetry_server/services/pricing_v2.py:86-103 | the fallback of an undated model is every stored dated snapshot of it, once each, newest first |
| RateCards.MatchingCardsNeverTie | apps/server/src/tokemetry_server/services/pricing_v2.py:143-179 | without overlaps two different matching cards already differ in tier match, bracket match or priority |
| RateCards.UniqueWinner | apps/server/src/tokemetry_server/services/pricing_v2.py:163-179 | the chosen card strictly outranks every other match |
| RateCards.RowOrderIrrelevant | apps/server/src/tokemetry_server/services/pricing_v2.py:163-166 | the same card is chosen in whatever order the database returns the rows |
| RateCards.ResolveRowOrder | apps/server/src/tokemetry_server/services/pricing_v2.py:106-129 | the resolved rate, fallback included, depends only on which cards are stored |
| RateCardAdmin.RangesIntersectMeaning | apps/server/src/tokemetry_server/services/pricing_v2.py:188-194 | two ranges have a common day exactly when the test says so and neither is inverted |
| RateCardAdmin.InvertedRangeIsRefused | apps/server/src/tokemetry_server/services/pricing_v2.py:188-194 | a range that ends before it starts is reported as intersecting although no day is shared |
| RateCardAdmin.NoOverlapMeaning | apps/server/src/tokemetry_server/services/pricing_v2.py:210-215 | never two cards of a grain on one day is the same as a pairwise check of the stored dates |
| RateCardAdmin.CheckOverlap | apps/server/src/tokemetry_server/services/pricing_v2.py:197-235 | reports the first stored card of the grain whose dates intersect, and none exactly when there is none |
| RateCardAdmin.GuardedInsertKeepsNoOverlap | apps/server/src/tokemetry_server/services/pricing_admin.py:115-138 | a card that passes the overlap check keeps the invariant |
| RateCardAdmin.CloseKeepsNoOverlapIff | apps/server/src/tokemetry_server/services/pricing_admin.py:151-171 | closing a card keeps the invariant exactly when its new range meets no other card of its grain |
| RateCardAdmin.ShorteningCloseIsSafe | apps/server/src/tokemetry_server/services/pricing_admin.py:151-171 | a close that does not extend the range always keeps it |
| RateCardAdmin.ExtendingCloseOverlaps | apps/server/src/tokemetry_server/services/pricing_admin.py:151-171 | a concrete extending close that breaks it |
| RateCardAdmin.RateCardTable.Create | apps/server/src/tokemetry_server/services/pricing_admin.py:90-148 | refused exactly when a card of the grain intersects; otherwise the card is appended and the invariant kept |
| RateCardAdmin.RateCardTable.Close | apps/server/src/tokemetry_server/services/pricing_admin.py:151-171 | overwrites the end date of the one card with the id, or reports that there is none |
| RateCardImport.CurrentOpenIsLatest | apps/server/src/tokemetry_server/services/pricing_import.py:102-121 | the current card of a grain is an open one with the latest start, found whenever one exists |
| RateCardImport.ComputeImportDiff | apps/server/src/tokemetry_server/services/pricing_import.py:102-201 | one change per row, with the row's columns: new if no card of the grain is open, else, against an open card of the latest start, unchanged at the same price, superseding it on the day before the import if it started earlier, and otherwise in conflict |
| RateCardDigest.DigestMeaning | apps/server/src/tokemetry_server/services/pricing_import.py:166-189 | the canonical form holds every change, sorted by key, changes of one key in the order of the rows |
| RateCardDigest.AcceptedIff | apps/server/src/tokemetry_server/services/pricing_import.py:241-246 | over any stored cards, rows and dates of the dry run and of the apply: the digest is accepted exactly when both diffs list the same changes key by key in the same order, so the same cards are closed on the same days |
| RateCardDigest.DigestDeterminesDiff | apps/server/src/tokemetry_server/services/pricing_import.py:241-246 | for the same rows on the same date it is accepted exactly when the diffs are equal row by row |
| RateCardDigest.AcceptedOnLaterDayIff | apps/server/src/tokemetry_server/api/v2/pricing.py:165-185 | one price list reviewed on one day and applied on a later one, each time dated on the day: accepted exactly when no row then supersedes a card |
| RateCardDigest.AppliedAsReviewedIff | apps/server/src/tokemetry_server/services/pricing_import.py:226-263 | for any row lists and dates: an apply accepted against the same cards leaves the reviewed table exactly when the rows it applies are, one by one, those the dry run would have applied |
| RateCardDigest.NewRowsShareDigest | apps/server/src/tokemetry_server/services/pricing_import.py:166-223 | new rows with equal listed columns have one digest whatever their tiers, modes, brackets, start dates, currencies and overrides, but leave the same table only if they are equal |
| RateCardDigest.ConfirmedOnNextDay | apps/server/src/tokemetry_server/api/v2/pricing.py:165-185 | a concrete price list reviewed on one day and confirmed on the next: the same digest, another start date |
| RateCardDigest.ConfirmedWithOtherTier | apps/server/src/tokemetry_server/services/pricing_import.py:241-263 | concrete rows whose confirmed digest lets in another tier than the reviewed one |
| RateCardImport.ImportShape | apps/server/src/tokemetry_server/services/pricing_import.py:247-259 | an import only closes superseded cards the day before its date and appends the applied rows in order, each as an open card equal to its row in every column |
| RateCardImport.ClosedCardsAreOpen | apps/server/src/tokemetry_server/services/pricing_import.py:153-156 | what is closed is the current open card of a superseding row and started before the import date |
| RateCardImport.ImportKeepsDay | apps/server/src/tokemetry_server/services/pricing_import.py:247-259 | on a day before the import date and before every applied row the same cards are in force |
| RateCardImport.PastUntouchedIff | apps/server/src/tokemetry_server/services/pricing_import.py:145-163 | the cards in force on every earlier day stay the same exactly when every applied row starts on or after the import date |
| RateCardImport.SameOnResolves | apps/server/src/tokemetry_server/services/pricing_v2.py:77-166 | equal cards in force on a day give equal resolved rates, although new model ids may have joined the fallback list |
| RateCardImport.ImportsNeverChangeThePast | apps/server/src/tokemetry_server/services/pricing_import.py:226-263 | any sequence of imports dated after a day leaves every resolution on that day as it was |
| RateCardImportRuns.ImportKeepsNoOverlapIff | apps/server/src/tokemetry_server/services/pricing_import.py:247-259 | an import keeps the invariant exactly when applied rows have distinct grains, new rows meet no stored card, and superseding rows are not backdated |
| RateCardImportRuns.NewRowMeetsClosedCard | apps/server/src/tokemetry_server/services/pricing_import.py:247-259 | a concrete row dated on the import date, taken as new, that overlaps a card closed for a later day |
| RateCardImportRuns.RunKeepsNoOverlap | apps/server/src/tokemetry_server/services/pricing_v2.py:210-215 | over any run of guarded creations, shortening closes and safe imports no grain ever has two cards on one day |
| RateCardImportRuns.UnrivalledWhen | apps/server/src/tokemetry_server/services/pricing_import.py:102-121 | the condition for idempotence holds in every table without overlaps and for all rows dated from the import date on |
| RateCardImportRuns.ReimportDiff | apps/server/src/tokemetry_server/services/pricing_import.py:145-163 | after an import the same rows are classified unchanged, and conflicts as conflicts again |
| RateCardImportRuns.ReimportIsNoOp | apps/server/src/tokemetry_server/services/pricing_import.py:226-263 | applying the same import again leaves the table as it is |
| RateCardImportRuns.TakeOver | apps/server/src/tokemetry_server/services/pricing_import.py:249-263 | one change of an import as an update of the table |
| RateCardImportRuns.ApplyImport | apps/server/src/tokemetry_server/services/pricing_import.py:226-263 | refused without effect exactly when the diff is not the reviewed one; otherwise the import, with the number of changes of each kind |
| CostEngine.AddMeaning | packages/core/src/tokemetry_core/interfaces.py:212-218 | adding to a quantity map changes one unit and raises the total by what was added |
| CostEngine.EmittedMeaning | packages/core/src/tokemetry_core/interfaces.py:200-205 | exactly the counters of emitted units are kept, unchanged |
| CostEngine.ComputeQuantities | packages/core/src/tokemetry_core/interfaces.py:178-219 | the accumulation gives the specified quantity map |
| CostEngine.QuantitiesMeaning | packages/core/src/tokemetry_core/interfaces.py:186-219 | per unit the emitted counter, the reasoning tokens and the billable units: reasoning counts as `reasoning_token` exactly when it is billed separately and rated, else as `output_token`; in total nothing is lost or counted twice |
| CostEngine.QuantizeIsNearest | apps/server/src/tokemetry_server/services/cost_v2.py:236-239 | a quantized amount is within half a micro-unit, no other multiple is nearer, and a tie goes to the even one |
| CostEngine.PriceConsumed | apps/server/src/tokemetry_server/services/cost_v2.py:213-239 | the pricing loop gives the status, missing units and amount that `CostEngine.AmountMeaning` and `CostEngine.StatusMeaning` explain |
| CostEngine.Compute | apps/server/src/tokemetry_server/services/cost_v2.py:204-264 | the same for a whole event, from its counters, reasoning tokens and billable units |
| CostEngine.StatusMeaning | apps/server/src/tokemetry_server/services/cost_v2.py:233-239 | the same for any list of consumed units; there is an amount unless none is rated |
| CostEngine.ConsumedMeaning | apps/server/src/tokemetry_server/services/cost_v2.py:206-207 | what is priced are the units of positive quantity, each with all of it |
| CostEngine.EventMeaning | apps/server/src/tokemetry_server/services/cost_v2.py:204-264 | an exception leaves only through the lookup of a needed reasoning rate; nothing consumed is priced at zero if the input rate is known; otherwise an error exactly when a consumed unit's lookup fails, else priced, partial or unpriced as all, some or none of the units have rates, missing are exactly those without, and the amount is the nearest to the sum of price times quantity |
| CostEngine.TotalIsBill | apps/server/src/tokemetry_server/services/cost_v2.py:230-231 | the total is the sum of price times quantity over the rated units of positive quantity, in whatever order they are listed |
| CostEngine.AmountMeaning | apps/server/src/tokemetry_server/services/cost_v2.py:230-239 | the amount of any list of consumed units is the micro-unit nearest to that sum, on the even side of a tie |
| CostEngine.LookUpMeaning | apps/server/src/tokemetry_server/services/cost_v2.py:216-220 | a rate that prices a unit is that of a stored card of the event's provider and unit in force on its day, at the standard mode, for its tier or any, and for no bracket |
| CostEngine.VisitingOrderIrrelevant | apps/server/src/tokemetry_server/services/cost_v2.py:215-231 | status, amount and missing units do not depend on the order of the units |
| CostEngine.ImportsNeverReprice | apps/server/src/tokemetry_server/services/cost_v2.py:204-239 | recomputing an event after any imports dated after it gives the same outcome |
| CostLedger.RecordMeaning | apps/server/src/tokemetry_server/services/computed_costs.py:55-103 | recording writes the row of one event and version, deactivates the event's other rows and keeps their amounts, touches no other event |
| CostLedger.LedgerIsHistory | apps/server/src/tokemetry_server/services/computed_costs.py:1-11 | after any recordings the row of an event and version is the last cost recorded for them, active exactly if that version was recorded last |
| CostLedger.OneActiveRow | apps/server/src/tokemetry_server/services/computed_costs.py:106-118 | an event has an active row exactly when a cost was recorded for it, never two, and it is the one recorded last |
| CostLedger.CostDatabase.RecordCost | apps/server/src/tokemetry_server/services/computed_costs.py:30-103 | an unknown status is refused without effect; otherwise the row for every event and version afterwards |
| CostLedger.RecordActivates | apps/server/src/tokemetry_server/services/computed_costs.py:55-103 | recording gives exactly one more event an active cost |
| CostLedger.UncostedMeaning | apps/server/src/tokemetry_server/services/cost_worker.py:58-67 | what is selected from are exactly the uncosted rows of the usage table |
| CostLedger.IsUncostedMeaning | apps/server/src/tokemetry_server/services/cost_worker.py:58-67 | uncosted are the final attempts for which no cost row is active |
| CostLedger.SweepProgress | apps/server/src/tokemetry_server/services/cost_worker.py:58-77 | whichever uncosted attempts the query returns, a sweep costs exactly those, or none when one of them raises, and lowers the number of uncosted attempts by min(batch, remaining) |
| CostLedger.CostDatabase.Sweep | apps/server/src/tokemetry_server/services/cost_worker.py:37-77 | the worker pass over the rows its query returned: the count, the ledger it commits, and the attempts it leaves uncosted |
| CostLedger.EntryForMeaning | apps/server/src/tokemetry_server/services/cost_v2.py:168-190 | what is recorded for an event: the version, the status by name, the missing units, the billing mode, and the amount on the side that the mode calls for |
| CostLedger.RemainingWithoutRaise | apps/server/src/tokemetry_server/services/cost_worker.py:66-77 | whatever the queries return, n sweeps without raising attempts cost n times batch of them, or all |
| CostLedger.LongSchedulesCover | apps/server/src/tokemetry_server/services/cost_worker.py:66-77 | so every long enough sequence of sweeps ends with full coverage |
| CostLedger.RaisingEventStays | apps/server/src/tokemetry_server/services/cost_worker.py:74-76 | an attempt whose pricing raises is never costed, however often the worker runs and whatever it selects |
| CostLedger.EventualCoverage | apps/server/src/tokemetry_server/services/cost_worker.py:1-10 | repeated sweeps can reach full coverage exactly when pricing raises for none of the uncosted attempts |
| CostLedger.SweepsKeepUnmerged | apps/server/src/tokemetry_server/services/cost_v2.py:178-181 | over any number of sweeps a row has a real amount only in other modes, and a subscription equivalent only in subscription mode |
| Sorting.Sorted | apps/server/src/tokemetry_server/db/backfill.py:157-160 | every member once, in ascending order |
| Sorting.PageContinues | apps/server/src/tokemetry_server/db/backfill.py:73-75 | reading on after the last key continues exactly where the scan stopped, although rows already read may have been deleted |
| Sorting.Scan | apps/server/src/tokemetry_server/db/backfill.py:403-418 | a paginated scan accumulates every row once in key order; with a limit of zero it reads nothing |
| Backfill.ViewOfImage | apps/server/src/tokemetry_server/db/migrations/versions/0010_usage_events_compat_view.py:22-50 | the compatibility view reproduces a copied row exactly if and only if its extra used neither reserved key, and all other columns always |
| Backfill.CopiedTwice | apps/server/src/tokemetry_server/db/backfill.py:163-165 | copying two sets of rows one after the other is copying both, so the insert is idempotent |
| Backfill.RerunCompletes | apps/server/src/tokemetry_server/db/backfill.py:148-151 | whatever part was copied before an interruption, a rerun gives the one-shot copy |
| Backfill.CopyKeysMeaning | apps/server/src/tokemetry_server/db/backfill.py:143-170 | inserting row by row in key order adds exactly the images of the keys that were absent |
| Backfill.RemovalUndoesCopy | apps/server/src/tokemetry_server/db/backfill.py:173-211 | removing marked rows restores the table before any partial or full copy exactly when it held no marked row |
| Backfill.Migration.BackfillRows | apps/server/src/tokemetry_server/db/backfill.py:143-170 | for any chunk size the table is the original plus the images of the rows read: all rows, or, if the process is stopped before some chunk, exactly those of the chunks before it; the source table is not written |
| Backfill.Migration.RemoveBackfilledRows | apps/server/src/tokemetry_server/db/backfill.py:173-211 | deleting while scanning removes exactly the marked rows and counts them |
| BackfillVerification.CountV1 | apps/server/src/tokemetry_server/db/backfill.py:383-418 | a group's count is the number of its rows, and a group without rows does not occur |
| BackfillVerification.V1TotalsAreSums | apps/server/src/tokemetry_server/db/backfill.py:383-418 | the count, the cost and each of the five token columns of a group are the sums over its rows |
| BackfillVerification.V2TotalsAreSums | apps/server/src/tokemetry_server/db/backfill.py:383-394 | the same for the marked rows of the second table with their saved cost, which can be read exactly when all of them can |
| BackfillVerification.PassesIff | apps/server/src/tokemetry_server/db/backfill.py:460-487 | whatever the tables hold, the comparison finds nothing exactly when the marked rows can be read and every group's count, cost and five token sums agree |
| BackfillVerification.ReportMeaning | apps/server/src/tokemetry_server/db/backfill.py:467-487 | the report lists exactly the groups whose totals differ, with both totals |
| BackfillVerification.MissingRowSurfaces | apps/server/src/tokemetry_server/db/backfill.py:460-487 | a row without a marked image, for instance held off by a native row with its key, always lowers its group's count |
| BackfillVerification.VerificationMeaning | apps/server/src/tokemetry_server/db/backfill.py:460-487 | if marked rows are images of their originals, the comparison passes exactly when every row has its marked image |
| BackfillVerification.CopyThenVerify | apps/server/src/tokemetry_server/db/backfill.py:143-170 | a full copy over a table without marked rows passes exactly when none of its keys was taken |
| BackfillVerification.AggregateV1 | apps/server/src/tokemetry_server/db/backfill.py:397-418 | the paginated aggregation of the first table gives those sums |
| BackfillVerification.AggregateV2 | apps/server/src/tokemetry_server/db/backfill.py:421-457 | the paginated aggregation of the marked rows of the second table gives those sums, or none if one cannot be read |
| BackfillVerification.VerifyBackfill | apps/server/src/tokemetry_server/db/backfill.py:460-487 | passes exactly when the marked rows can be read and every sum of every group agrees, on faithful tables exactly when the copy is complete, and with a chunk size of zero always; the report is the full one |
| IngestClient.Batches | packages/clients/typescript/src/client.ts:102-120 | the batches concatenate to the input, each is non-empty and within both limits or a single event, and none could have taken the next event |
| IngestClient.FewestBatches | packages/clients/typescript/src/client.ts:102-120 | no other division into batches within the limits needs fewer |
| IngestClient.BodyLength | packages/clients/typescript/src/client.ts:156-158 | the posted body has exactly 31 code units more than the batcher counted |
| IngestClient.EncodedBody | packages/clients/typescript/src/client.ts:22-23 | encoded, what is posted takes exactly the encoded events with one byte each for their separators, and 31 more, so it exceeds the limit exactly when that sum does |
| IngestClient.PostedBytes | packages/clients/typescript/src/client.ts:22-23 | a batch of several events takes more encoded bytes than were counted, and at most three times the limit and the envelope |
| IngestClient.PostedOverLimit | packages/clients/typescript/src/client.ts:102-120 | a concrete batch of two events within a limit of six is posted as 37 bytes |
| IngestClient.SplitIsComplete | packages/clients/typescript/src/client.ts:36-46 | accepted and poison events together are the input, as often as each occurs |
| IngestClient.SubmitsLinear | packages/clients/typescript/src/client.ts:145-149 | one batch of n events costs at most 2n - 1 submissions |
| IngestClient.SubmitsByPoison | packages/clients/typescript/src/client.ts:145-149 | with k poison events among n it costs at most 1 + 2k * ceil(log2 n), and one with none |
| IngestClient.CeilLog2Meaning | packages/clients/typescript/src/client.ts:145-149 | the depth used in that bound is the logarithm rounded up |
| IngestClient.Client.Backoff | packages/clients/typescript/src/client.ts:180-184 | the wait is the whole part of the random share of base times two to the attempt, so at most that |
| IngestClient.WaitsMeaning | packages/clients/typescript/src/client.ts:155-178 | the longest waits after n attempts add up to base times (2^n - 1) |
| IngestClient.PausesAddUp | packages/clients/typescript/src/client.ts:155-178 | the pauses of one post add up to at most the longest waits after maxRetries attempts |
| IngestClient.Client.Post | packages/clients/typescript/src/client.ts:155-178 | over the replies to one batch: a retryable one is followed by a pause and another attempt as long as one is left, a missing one is an error, any other one is returned, and retries are exhausted only after maxRetries + 1 retryable replies; a 2xx reply acknowledges a wholly valid batch |
| IngestClient.Client.Submit | packages/clients/typescript/src/client.ts:122-153 | exactly the invalid events are set aside in order, the valid ones acknowledged once each, and the acknowledged counts added up; an error is always that of the last reply, a retryable one only after maxRetries + 1 of them to one batch, and leaves a first part decided |
| IngestClient.Client.Ingest | packages/clients/typescript/src/client.ts:87-99 | the same for the whole input over its greedy batches, counting one batch for each response; accepted is the sum of the reported counts, and if none exceeds its batch, accepted and rejected add up to the input exactly when every readable reply counted its whole batch |
| IngestClient.FreshMeaning | apps/server/src/tokemetry_server/services/ingest_v2.py:153-168 | a batch is counted whole exactly when its events are distinct and none of them was stored before |
| IngestClient.AddUpIff | packages/clients/typescript/src/client.ts:130-133 | once everything is decided and no reply counted more than its batch, accepted and rejected add up to the events exactly when every readable reply counted a whole batch |
| IngestClient.CountedWholeMeaning | apps/server/src/tokemetry_server/services/ingest_v2.py:153-168 | for the counts of this repository's endpoint that is when the events of every readable reply were distinct and none had been stored before it |
| IngestClient.FreshCallAddsUp | packages/clients/typescript/src/client.ts:36-46 | what a caller can check: with distinct valid events, none of them stored, they add up unless a stored request goes unanswered and is sent again |
| IngestClient.FreshCallIff | packages/clients/typescript/src/client.ts:36-46 | and exactly then: when every reply could be read they add up if and only if the valid events are distinct, none was stored, and no request was stored without its acknowledgement |
| IngestClient.RetryIsNotCounted | packages/clients/typescript/src/client.ts:162-177 | a concrete retry after a lost acknowledgement: the event is decided and stored, and counted neither as accepted nor as rejected |
| RateLimit.CheckMeaning | apps/server/src/tokemetry_server/services/rate_limit.py:38-55 | a call is granted exactly when its key holds enough, lowers what it holds by what is granted, leaves other keys alone and keeps tokens within bounds |
| RateLimit.RunKeepsInv | apps/server/src/tokemetry_server/services/rate_limit.py:38-55 | over any run stored tokens stay between zero and the capacity |
| RateLimit.WindowBound | apps/server/src/tokemetry_server/services/rate_limit.py:17-34 | whatever came before, one key is granted at most capacity plus refill times length in any period |
| RateLimit.GrantedIff | apps/server/src/tokemetry_server/services/rate_limit.py:38-55 | the limit is exact: after any calls a request is granted exactly when it fits, beside what was granted, in every period that ends now; in particular a key not seen yet starts full |
| RateLimit.HeldIsLeastRoom | apps/server/src/tokemetry_server/services/rate_limit.py:38-49 | what a key holds is the least of what still fits in any period that ends now |
| RateLimit.KeysAreIndependent | apps/server/src/tokemetry_server/services/rate_limit.py:3-8 | a key fares exactly as if the calls of all other keys had not been made |
| RateLimit.RetryAfterMeaning | apps/server/src/tokemetry_server/services/rate_limit.py:41-46 | after a denial the request is granted after a wait exactly when tokens refill, the capacity holds its cost and the wait is at least the advertised one |
| RateLimit.AdvertisedDelaySuffices | apps/server/src/tokemetry_server/services/rate_limit.py:50-53 | the advertised delay is enough exactly when tokens refill and the cost fits the capacity |
| RateLimit.RateLimiter.CheckKey | apps/server/src/tokemetry_server/services/rate_limit.py:38-55 | the method's verdict and new state, and what every key holds afterwards |
| ContentScan.LongerKeysOffendToo | apps/server/src/tokemetry_server/services/privacy.py:65-73 | whatever surrounds an offending key, the longer key offends as well |
| ContentScan.SpellingIrrelevant | apps/server/src/tokemetry_server/services/privacy.py:65-73 | whether a key offends depends neither on the case of its letters nor on anything in it but letters and digits |
| PathTexts.ScanContentKeys | apps/server/src/tokemetry_server/services/privacy.py:257-275 | the recursive scan returns the cleaned copy and appends the dotted texts of the hits in visiting order |
| ContentScan.CleanAt | apps/server/src/tokemetry_server/services/privacy.py:257-275 | path by path: nothing is left under a content key, everything else is where it was |
| ContentScan.ScalarsSurvive | apps/server/src/tokemetry_server/services/privacy.py:270-275 | a scalar whose path has no content key survives unchanged |
| ContentScan.ReportMeaning | apps/server/src/tokemetry_server/services/privacy.py:263-267 | the hits are exactly the shallowest paths to a content key |
| ContentScan.HitsAreDistinct | apps/server/src/tokemetry_server/services/privacy.py:263-267 | no path, as a sequence of steps, is reported twice |
| PathTexts.ReportedTextsDiffer | apps/server/src/tokemetry_server/services/privacy.py:257-275 | if no reported key contains a dot or an opening bracket, the reported texts are pairwise different |
| PathTexts.PlainPathsDiffer | apps/server/src/tokemetry_server/services/privacy.py:263-274 | paths without such keys have one text only if they are equal |
| PathTexts.SharesTextIff | apps/server/src/tokemetry_server/services/privacy.py:263-274 | a key has the text of another path exactly when it contains a dot or ends in a bracketed index |
| PathTexts.DottedPathsCoincide | apps/server/src/tokemetry_server/services/privacy.py:263-267 | for any test: a nested key and a key with a dot are both reported, under one text |
| PathTexts.BracketedPathsCoincide | apps/server/src/tokemetry_server/services/privacy.py:263-274 | the same without any dot: an item of a list, and a field of a key that ends like an index |
| PathTexts.ProgramReportsTwice | apps/server/src/tokemetry_server/services/privacy.py:257-275 | under the program's own key test such a tree exists |
| ContentScan.SilentIffUnchanged | apps/server/src/tokemetry_server/services/privacy.py:257-275 | nothing is reported exactly when nothing is changed |
| ContentScan.ScanIsIdempotent | apps/server/src/tokemetry_server/services/privacy.py:257-275 | scanning a cleaned tree changes and reports nothing |
| ContentScan.CleanIsNoDeeper | apps/server/src/tokemetry_server/services/privacy.py:76-86 | cleaning never increases the nesting depth |
| ContentScan.DepthMeaning | apps/server/src/tokemetry_server/services/privacy.py:76-86 | the depth is the length of the longest path to a container, the container included: shorter lengths all occur, longer ones do not |
| AgentHierarchy.Depth | apps/server/src/tokemetry_server/services/agent_hierarchy.py:31-41 | terminates on every parent map with a depth of at most the number of agents, and is the length of the parent chain whenever that ends |
| AgentHierarchy.RootPathDepth | apps/server/src/tokemetry_server/services/agent_hierarchy.py:31-41 | along a chain that ends the depth is the parent's plus one, and zero without a parent |
| AgentHierarchy.ParentMapIsClosed | apps/server/src/tokemetry_server/services/agent_hierarchy.py:70-78 | every parent is another agent of the session |
| AgentHierarchy.SpanOwnerMeaning | apps/server/src/tokemetry_server/services/agent_hierarchy.py:65-67 | a span belongs to the agent of the last attempt that carries it |
| AgentHierarchy.FirstCallerIsFirst | apps/server/src/tokemetry_server/services/agent_hierarchy.py:70-76 | an agent's parent is the caller of the first of its attempts whose parent span belongs to another agent |
| AgentHierarchy.BuildParents | apps/server/src/tokemetry_server/services/agent_hierarchy.py:65-78 | the first caller found by span becomes the parent; counts are the attempts of each agent |
| AgentHierarchy.SessionAgents | apps/server/src/tokemetry_server/services/agent_hierarchy.py:44-89 | exactly one node per agent with its parent, depth and attempts, ordered by depth and then identifier; the nodes' attempts add up to the session's |
| AgentHierarchy.CountsAddUp | apps/dashboard/src/lib/agentTree.ts:39-41 | over any list with one node per agent the attempt counts the dashboard adds up are the attempts of the session |
| AgentHierarchy.CyclicParents | apps/server/src/tokemetry_server/services/agent_hierarchy.py:65-78 | two agents that call each other are each other's parent, and neither chain of parents ends |
| AgentTree.GroupByParent | apps/dashboard/src/lib/agentTree.ts:14-20 | the children of each parent, in list order |
| AgentTree.Visit | apps/dashboard/src/lib/agentTree.ts:23-34 | terminates on any list; adds only what lies below the parent, once each and below its parent, and misses none of it |
| AgentTree.AgentTreeRows | apps/dashboard/src/lib/agentTree.ts:13-37 | exactly the identifiers reachable from roots, once each, parents first; without a cycle below a root the plain preorder, and on a forest all nodes |
| AgentTree.SiblingsApart | apps/dashboard/src/lib/agentTree.ts:11-12 | without a cycle below a root the subtrees of siblings are disjoint, so the cycle guard never acts there |
| SessionView.ReachedIffRooted | apps/dashboard/src/lib/agentTree.ts:11-37 | an agent can be reached in the tree exactly when its chain of parents on the server ends |
| SessionView.SiblingsInOrder | apps/server/src/tokemetry_server/services/agent_hierarchy.py:89 | siblings that are shown come in the order of their identifiers |
| SessionView.ShowSession | apps/dashboard/src/lib/agentTree.ts:11-37 | from attempts to rows: exactly the agents whose chain of parents ends are shown, once each, a root at depth zero and any other one deeper than its parent's row, with its attempts; the rows are the preorder of the server's list |
| FloodControl.TooSoonMeaning | apps/server/src/tokemetry_server/services/ingest_v2_meta.py:114-131 | a snapshot is not too soon exactly when every stored one of its stream is at least the interval older |
| FloodControl.StoreMeaning | apps/server/src/tokemetry_server/services/ingest_v2_meta.py:62-87 | a snapshot becomes the newest row unless the control is on and a stored one of its stream is closer than the interval |
| FloodControl.DroppedWereClose | apps/server/src/tokemetry_server/services/ingest_v2_meta.py:49-87 | every snapshot that a batch drops is closer than the interval to a stored one of its stream, and stored rows stay |
| FloodControl.BatchesKeepSpaced | apps/server/src/tokemetry_server/services/ingest_v2_meta.py:62-66 | over any snapshots in any order the stored ones of each stream stay at least the interval apart |
| FloodControl.StoreAllConcat | apps/server/src/tokemetry_server/services/ingest_v2_meta.py:49-87 | how snapshots are divided into batches does not matter |
| FloodControl.SnapshotTable.IngestLimits | apps/server/src/tokemetry_server/services/ingest_v2_meta.py:49-87 | remembering accepted timestamps within a batch comes to the plain rule against everything stored |

## Left out

- HTTP, routing, authentication, SQL dialects, transactions of the surrounding request, logging, audit rows and statistics fields.
- Dry runs and the bootstrap import of the collector.
- The file parsers themselves: a file is its complete records by byte position; a pass returns them all, or deduplicated within the pass as the Claude Code source does. Truncated and rotated files: the resume rule is modelled, but files only grow.
- Collector.Agent.TailUsage: the sizes of all listed files are taken when the cycle starts, and files grow between the passes of two files; within a pass the parser's reading is one step.
- Batches the server rejects for good: the queue's head is then retried for ever, and nothing is claimed about delivery.
- Limit batches of the collector: they are queued and sent like others, but their effect on the server is not part of the protocol; replaying one appends again.
- CollectorProtocol.SharedKeys: of equally large rows that several files record for one key, which is kept depends on the order of delivery and is not determined here.
- KeepMax.RevisionEngineIsUpsert: the columns the server derives when it ingests an event, such as its cost and its source, are not part of exactly-once; an event delivered again after a recomputation is stored with another cost.
- RateCards.BaseModelIdMeaning: the dated suffix is a hyphen and eight ASCII digits at the end; other Unicode digits and a trailing newline are not modelled.
- RateCardDigest.AcceptedIff: compares canonical diffs; the hash itself and JSON encoding are not part of this model.
- Region, verification date, audit entries and the pricing version counter of rate cards; dry runs.
- CostEngine.AmountMeaning: sums are exact, so the precision limit of decimal arithmetic is not modelled.
- CostLedger.EventualCoverage: the usage table and the rates do not change during a sequence of sweeps.
- CostLedger.RecordMeaning: currency, calculation time and observed cost are not part of a row.
- Concurrent sweeps or recordings: each runs alone.
- Unique constraints of the database are taken for granted: one usage row per event key, one card per identifier.
- BackfillVerification.VerificationMeaning: assumes that marked rows are images; rows altered after the copy in ways that cancel within a group are not detected by totals.
- Filling the transitional cost column and attributing sources after the backfill.
- IngestClient.Client.Post: the server stores a batch whole or not at all; waits are numbers added up, not a clock.
- IngestClient.Client.Submit: an empty batch, which the client never sends, would be bisected for ever.
- RateLimit.RateLimiter.CheckKey: exact numbers instead of floating point.
- ContentScan.LongerKeysOffendToo: the program's key test is modelled for ASCII keys; the other theorems hold for any key test.
- ContentScan.ReportMeaning: speaks of paths as sequences of steps; the scan reports their texts, which `PathTexts.ReportedTextsDiffer` tells apart.
- The other privacy checks, validation, registries, alerting, queries, forecasts and the rest of the dashboard.
- AgentTree.Visit: the set and the rows that the nested closure shares are passed in and out instead of being updated in place.
- FloodControl.SnapshotTable.IngestLimits: the source of a snapshot is taken as resolved, and no other writer touches the table.
