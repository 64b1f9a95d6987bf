# Verified models of the sale pipeline

The repository is a live feed of NFT sales on Solana: pollers and a WebSocket listener ingest
transactions, a database keeps the sales, enrichment adds names, images, floors and seller counts,
and an event bus sends everything to the clients. This project models its small hard cores in Dafny
and proves what they promise. `dafny verify dfyconfig.toml` checks all of it.

- **Poller** (`PollerPaging`, `PollerBacklog`, `PollerSweep`, `PollerMemory`, `PollerRuns`,
  `PollerFloor`, `PollerQueue`, `PollerCatchUp`, `IngestOutcomes`, `CatchupMarker`). The chain of one
  poll target is a growing sequence. Pages, scans, verdicts, cursor writes, evictions and crashes are
  steps; `PollerRuns`, `PollerFloor`, `PollerQueue` and `PollerCatchUp` state what holds after every
  sequence of them. The class `AmmPoller` holds the module variables,
  and its methods are the synchronous stretches of a sweep, proved equal to the functions that the
  steps use.
- **Seller holdings** (`SellerHoldings`). Each SQL statement is one atomic step on the row of one
  pair; the promise chain, the single flight and the sales of a process are a state machine over it.
- **Offer jumps** (`OfferHistory`). The hysteresis machine over real prices, from the normalised bid
  to counting bounds over whole runs.
- **Limiter and slots** (`Concurrency`, `EnrichPool`). Classes with the counters and queues of the
  source, and the runs of the limiter as a state machine.
- **First listing** (`FirstListed`). A read of a cache, an atomic LEAST upsert and a cache write,
  interleaved over any number of processes.
- **Order book** (`OrderBook`, `FloorDepth`, `CrossMarket`, with the list theory in `Orderings`).
- **Arithmetic and codecs** (`ModularArithmetic`, `MetaplexOnchain`, `TransactionWalk`,
  `LmnftState`). The point check follows section 5.1.3 of RFC 8032.
- **Emission, replay and windows** (`DeferredEmit`, `ReplayBuffer`, `RecentSells`,
  `OwnershipLoops`, `ImageRetry`, with `Windows`).

Some readings of the code that its comments do not give:

- The cursor promises that everything from some floor up to it is resolved. That floor is the tail of
  the first page of the target (`ColdRunSafety`). A page that is cut off at the page budget is only
  flagged when the budget is above five pages (src/ingestion/amm-poller.ts:389), so in the lean
  modes, and for MMM in every mode, the cursor can pass a sale that nobody has ingested
  (`CutOffPageSkips`, `SaleLeftBehind`). `FloorKeptExactly` says when the floor moves in a run:
  exactly when a catch-up is completed or such a sweep advances the cursor; `GapExactly` says which
  sweeps those are, by what their fetch found.
- Completing a catch-up checks the last page only and is said never to lose data
  (src/ingestion/amm-poller.ts:885-893). That holds as long as one process walks the whole catch-up
  and no page of it is cut off without a flag (`CatchUpKeepsAll`). A restart loses what the first
  process had queued (`CrashedCatchUpLoses`), and a change to a lean mode can skip what was never
  fetched (`LeanCatchUpSkips`).
- The deferred dispatch of the lean MMM mode takes a signature that somebody has fetched for a
  duplicate (src/ingestion/mmm-prefilter.ts:179). A fetch may still be under way, or come to nothing
  (src/ingestion/me-raw/ingest.ts:247-251, 412-416), so this is the one verdict that can be terminal
  for a signature that is not settled (`TerminalMeansSettled`), and the cursor can pass a sale that
  way (`DuplicateBeforeStored`). Targets share the memory of outcomes, so the same verdict can reach
  another target. `CursorSafety` is stated for runs in which neither happens; `UnsoundBreaks` shows
  that nothing less will do, and `DirectRunsAreSound` that every other mode meets it.
- A signature whose outcome was forgotten is not dispatched again while it is still in the seen
  memory, although the comment at src/ingestion/amm-poller.ts:182-186 says so; it holds the cursor
  back until newer signatures push it out (`ForgottenIsNotRetried`). A signature that is marked twice
  gets there: it keeps its old place among the outcomes (`ForgottenBlocks`).
- A process that stops between a successful first-sight scan and its seed leaves nothing behind, so
  the number of scans of a pair has no bound across restarts (`ScansPileUp`); without such a stop
  there is at most one (`FirstSightIsExclusive`).
- The result of the cross-market comparison is documented as independent of the input order
  (src/analytics/cross-market.ts:122-127). It is not when rows of different kinds tie as the cheapest
  of one mint (`OrderMatters`); `OrderFreeExactly` gives the exact condition.

## Model

| member | source | states |
|---|---|---|
| PollerPaging.FetchSinceCursor | src/ingestion/amm-poller.ts:328-398 | A fetch whose requests see a growing chain returns what one look at the chain at its first page determines; only a mode change aborts it. |
| PollerPaging.Walk | src/ingestion/amm-poller.ts:365-389 | The paging loop holds exactly the newest pending rows after each page, and all of them once a page is short or empty. |
| PollerPaging.SteadyCoverage | src/ingestion/amm-poller.ts:341-389 | A steady sweep returns the newest rows above the cursor; it reaches the cursor if and only if no more than a page budget of them is new; when it is flagged as saturated. |
| PollerPaging.CatchUpCoverage | src/ingestion/amm-poller.ts:345-389 | A sweep of a catch-up returns the newest page above the cursor and then the walk below its marker; it reaches the cursor if and only if no more than a page budget lies between. |
| PollerPaging.UnflaggedGap | src/ingestion/amm-poller.ts:118-135 | Rows are missed without a flag if and only if more than the page budget is new and the mode is lean or the target is MMM. |
| CatchupMarker.MarkerRoundTrip | src/ingestion/amm-poller.ts:515-520 | A written catch-up marker is read back exactly when both parts are non-empty and the first has no colon. |
| IngestOutcomes.TerminalMeansSettled | src/ingestion/mmm-prefilter.ts:164-192 | With truthful sources, an unsettled signature is reported terminal if and only if the lean MMM path has no other evidence and finds that somebody fetched it; every other unsettled one is retryable. |
| IngestOutcomes.OutcomeSources | src/ingestion/amm-poller.ts:825-858 | Each of the four outcomes is reported exactly when one of its sources says so. |
| IngestOutcomes.SigTerminal.NoteIngestOutcome | src/ingestion/sig-terminal.ts:21-30 | A terminal verdict replaces the last one of its signature; at the cap exactly the oldest entry that has not expired is dropped, if the purge leaves no room; a retryable one changes nothing. |
| IngestOutcomes.SigTerminal.PurgeExpired | src/ingestion/sig-terminal.ts:23-26 | The purge keeps exactly the entries that have not expired. |
| IngestOutcomes.SigTerminal.TerminalOutcome | src/ingestion/sig-terminal.ts:32-37 | A verdict is recalled if and only if one was noted within the last 30 minutes and not dropped at the cap; it is the last one noted, and terminal. |
| PollerBacklog.OldestDispatchedExactly | src/ingestion/amm-poller.ts:458-483 | The oldest queued item is dispatched if and only if the page has two rows, or has one and the backlog is deep or old. |
| PollerBacklog.GuaranteedShare | src/ingestion/amm-poller.ts:423-483 | The sweep is never more than its page; the backlog gets three tenths of it, rounded, half of a doubled sweep once it presses, the whole page at 60 items, unless fewer wait, and fresh signatures get the rest. |
| PollerBacklog.BudgetExactly | src/ingestion/amm-poller.ts:458-483 | The size of the sweep and the part of the backlog, to the nearest whole number, from depth, age and page. |
| PollerBacklog.FreshOnly | src/ingestion/amm-poller.ts:458-483 | Without a backlog the whole base budget, or the page, is for fresh rows. |
| PollerBacklog.RequeueOldestFirst | src/ingestion/amm-poller.ts:452-456 | The loop inserts behind everything that is at most as old. |
| PollerBacklog.RequeueSorted | src/ingestion/amm-poller.ts:444-456 | Putting an item back keeps the queue in order of age. |
| PollerBacklog.RequeueBehind | src/ingestion/amm-poller.ts:444-456 | An item keeps its place against anything at least as young and loses one place to an older one. |
| PollerSweep.AmmPoller.MarkLocalSeen | src/ingestion/amm-poller.ts:158-172 | The seen set is the last 5000 distinct signatures marked, and the answer says whether this one is new. |
| PollerSweep.AmmPoller.RememberOutcome | src/ingestion/amm-poller.ts:187-199 | The outcome memory takes the outcome and forgets the signatures remembered first beyond 10000. |
| PollerSweep.AmmPoller.ScanRows | src/ingestion/amm-poller.ts:752-774 | The scan classifies every row, in page order, against memories that evict as it goes. |
| PollerSweep.AmmPoller.PlanSweep | src/ingestion/amm-poller.ts:726-823 | What a sweep dispatches (oldest backlog first, then the newest new rows), what it queues, and that other targets are untouched. |
| PollerSweep.PlanMeans | src/ingestion/amm-poller.ts:776-823 | The oldest of the backlog and then the newest of the new rows are dispatched; the rest of the new rows waits behind the backlog, oldest first. |
| PollerSweep.NewInPageOrder | src/ingestion/amm-poller.ts:752-774 | The new rows are listed in page order, newest first. |
| PollerSweep.AmmPoller.RecordAnswer | src/ingestion/amm-poller.ts:825-864 | A verdict goes to memory and to the page; a retryable item goes back to the queue with its age. |
| PollerSweep.AnswerMeans | src/ingestion/amm-poller.ts:825-864 | On a page without repetition an answer is the outcome of its own row only, and exactly an item to retry goes back to the queue, with the time it came with. |
| PollerSweep.SafeAdvanceSigFromPage | src/ingestion/amm-poller.ts:233-244 | The newest signature that is terminal-safe together with everything older on the page; none if and only if the oldest row is not safe. |
| PollerMemory.TakenUp | src/ingestion/amm-poller.ts:752-774 | A row is taken up if and only if it did not fail and the memory has not got its signature after the newer rows; what its outcome is then. |
| PollerMemory.ForgottenIsNotRetried | src/ingestion/amm-poller.ts:158-199 | A seen signature is taken up again if and only if the newer rows of the page pushed it out of the 5000 seen ones; until then it has whatever is remembered, and a forgotten one holds the cursor back. |
| PollerMemory.TouchAllNew | src/ingestion/amm-poller.ts:158-199 | New signatures push out of both memories exactly what came first. |
| PollerMemory.ForgottenBlocks | src/ingestion/amm-poller.ts:762-769 | After 10002 marks and outcomes, a signature that is seen and forgotten gets no outcome, is not taken up and makes its page unsafe. |
| PollerRuns.PollerStore.FinishSweep | src/ingestion/amm-poller.ts:870-934 | A saturated page moves only the marker, to its oldest row; a catch-up ends when the newest safe row has the first signature of the page, and the cursor then takes the frozen one; otherwise the cursor takes the newest row that is safe with everything older, or stays. A forced exit has the same effect as completion. |
| PollerRuns.PollerStore.EmptySweep | src/ingestion/amm-poller.ts:700-714 | A fetch that brings nothing ends a catch-up with the frozen signature as cursor, and otherwise changes nothing. |
| PollerRuns.StepKeepsInv | src/ingestion/amm-poller.ts:664-934 | Every step with a sound outcome, a crash included, keeps the cursor, the memories, the page and its outcomes truthful. |
| PollerRuns.CursorSafety | src/ingestion/amm-poller.ts:174-199 | In every run with sound outcomes, everything between the floor and the persisted cursor is failed on chain or truly settled. |
| PollerRuns.UnsoundBreaks | src/ingestion/amm-poller.ts:187-199 | An outcome that is not sound always breaks the truth of the memory, so soundness is exactly what a step needs. |
| PollerRuns.DirectRunsAreSound | src/ingestion/amm-poller.ts:852-864 | A target that never defers has sound runs, as long as other targets remember only what is settled. |
| PollerRuns.DuplicateBeforeStored | src/ingestion/mmm-prefilter.ts:172-182 | A concrete run of the lean MMM mode in which the cursor passes a sale that somebody is fetching and nobody has stored. |
| PollerFloor.FloorMovesExactly | src/ingestion/amm-poller.ts:870-934 | No step takes the cursor back or the floor down; the floor moves if and only if the step completes a catch-up or ends a sweep with an unflagged gap and a safe oldest row; where it moves to. |
| PollerFloor.CursorAdvances | src/ingestion/amm-poller.ts:233-244 | A sweep that is not saturated and no catch-up leaves the cursor on a row that is safe with everything older, at or above every such row; with none, the cursor stays. |
| PollerFloor.SafePageReachesTop | src/ingestion/amm-poller.ts:870-934 | In every run, when the whole page is safe, the cursor ends on what was the newest signature of the chain at the fetch of that sweep. |
| PollerFloor.FloorKeptExactly | src/ingestion/amm-poller.ts:870-934 | Over every run the cursor never goes back, and the floor is the same at the end if and only if no step of the run was one of those two. |
| PollerFloor.GapExactly | src/ingestion/amm-poller.ts:118-135 | In every run a sweep has an unflagged gap if and only if its fetch, from the cursor, found more than the page budget in a lean mode or for MMM. |
| PollerFloor.SteadyRunSafety | src/ingestion/amm-poller.ts:870-934 | While no fetch is over budget in those modes and no catch-up is completed, the cursor only moves forward, the floor stays, and nothing unresolved above it is passed. |
| PollerFloor.FullModeKeepsUp | src/ingestion/amm-poller.ts:383-389 | In full mode a target other than MMM is never over budget in this sense, whatever is new. |
| PollerFloor.ColdRunSafety | src/ingestion/amm-poller.ts:328-340 | A target without a cursor takes its floor from the tail of its first page, at the first sweep whose oldest row is safe; while it keeps up the floor stays there and everything above it up to the cursor is resolved. |
| PollerFloor.CutOffPageSkips | src/ingestion/amm-poller.ts:383-389 | In a lean mode or for MMM, a cut-off page whose rows failed on chain moves the cursor to the newest signature, past everything in between. |
| PollerFloor.SaleLeftBehind | src/ingestion/amm-poller.ts:118-135 | A concrete chain on which one such sweep passes an unsettled sale. |
| PollerQueue.NothingLost | src/ingestion/amm-poller.ts:776-864 | In every run with sound outcomes, each signature taken up since the last crash is settled, queued or in flight. |
| PollerQueue.QueueOrdered | src/ingestion/amm-poller.ts:444-456 | In every run under a monotone clock the queue stays sorted by age, and a sweep never has more in flight than its page. |
| PollerQueue.MovesUp | src/ingestion/amm-poller.ts:787-795 | After each run an item has been dispatched or has moved up once per sweep that served the backlog. |
| PollerQueue.OldestServed | src/ingestion/amm-poller.ts:411-430 | An item with p ahead of it is dispatched within p + 1 serving sweeps unless something older fails again. |
| PollerQueue.AgedIsServed | src/ingestion/amm-poller.ts:411-483 | Counted by the item alone: within p + 1 sweeps of two rows, or of one row once the item is 30 s old, whatever else waits. |
| PollerCatchUp.StepWalks | src/ingestion/amm-poller.ts:664-934 | Every step of one process keeps what a catch-up has walked over taken up, from its frozen signature down to where it stands. |
| PollerCatchUp.CatchUpKeepsAll | src/ingestion/amm-poller.ts:870-934 | When one process completes a catch-up of which no page was cut off without a flag, everything between the old cursor and the new one is failed, settled or queued, or was taken up by another target. |
| PollerCatchUp.CrashedCatchUpLoses | src/ingestion/amm-poller.ts:883-927 | A concrete run in which a restart during a catch-up leaves a sale behind the cursor, neither settled nor queued. |
| PollerCatchUp.LeanCatchUpSkips | src/ingestion/amm-poller.ts:118-135 | A concrete run in which a change to a lean mode during a catch-up leaves a sale behind the cursor that no sweep fetched. |
| PollerQueue.ColdStart | src/ingestion/amm-poller.ts:309-339 | A process that starts on any chain without a cursor satisfies the invariants of all runs. |
| SellerHoldings.CounterLaw | src/db/insert.ts:157-232 | After a scan write, the row is the scanned value less the decrements since, never below zero, and counts them. |
| SellerHoldings.RowNeverVanishes | src/db/insert.ts:157-232 | Once there is a row, no later statement of any process removes it. |
| SellerHoldings.RowLaw | src/db/insert.ts:157-232 | Whatever statements committed, from any process, an existing row descends from its last scan write in this way. |
| SellerHoldings.RowExists | src/db/insert.ts:157-232 | There is a row exactly when some scan value was written. |
| SellerHoldings.RowSaysAll | src/db/insert.ts:157-232 | After any ledger the row is the last scan value less the decrements since, counts them, and carries the time of the last statement that wrote it. |
| SellerHoldings.DecrementReturns | src/db/insert.ts:157-189 | A decrement returns what is left after it, the decrements since the scan, and the time of the last earlier statement that wrote the row. |
| SellerHoldings.HoldingsRow.AtomicDecrement | src/db/insert.ts:157-194 | A row that exists is decremented, never below zero, and carries the time of the statement; the statement returns it with the time it carried before, and nothing when there is no row. |
| SellerHoldings.HoldingsRow.Seed | src/db/insert.ts:196-214 | The statement inserts a row with the scanned value and no decrements unless there is one, which it leaves alone, and tells who won. |
| SellerHoldings.HoldingsRow.Overwrite | src/db/insert.ts:216-232 | The statement installs a scanned value with no decrements and its own time. |
| SellerHoldings.HandedOut | src/db/insert.ts:168-189 | The value a decrement or a won seed returns, as a function of the scan and the decrements so far. |
| SellerHoldings.HandedOutDecrease | src/db/insert.ts:168-189 | Two values handed out between the same two scan writes strictly decrease in commit order while positive. |
| SellerHoldings.StepKeepsChain | src/enrichment/seller-holdings.ts:199-211 | A link of the chain starts only when every earlier link has settled, also across the clearing of the map. |
| SellerHoldings.FirstSightIsExclusive | src/enrichment/seller-holdings.ts:225-268 | In every interleaving, across clears and restarts, at most one link and one reconciliation scan are at work, and the successful first-sight scans are at most one more than the restarts that lost a seed. |
| SellerHoldings.KnownNeverScans | src/enrichment/seller-holdings.ts:225-268 | A process that starts when the pair has a row never scans at first sight, and neither does any later one. |
| SellerHoldings.ReconcilesExactly | src/enrichment/seller-holdings.ts:270-295 | In every run a sale waits for a reconciliation if and only if the row had not been written for more than 21600000 ms, or at most 3 are left, or 25 decrements came since the scan; it joins a scan under way. Otherwise it is answered with what is left, and without a row it queues for the first scan. |
| SellerHoldings.OnlyScansAreWritten | src/enrichment/seller-holdings.ts:239-268 | In every run each scan value that is installed was returned by a scan or came from another process. |
| SellerHoldings.ScansPileUp | src/enrichment/seller-holdings.ts:239-262 | A run for every n in which n processes scan, stop before the seed and leave no row. |
| SellerHoldings.HandedOutValuesDiffer | src/enrichment/seller-holdings.ts:278-295 | Two sales of a process share a statement only when one reconciliation answered both; otherwise, between two scan writes, the first included, the later value is smaller while positive. |
| OfferHistory.UsableMmmBid | src/analytics/normalized-collection-bid.ts:164-189 | An MMM bid is built as usable if and only if its price is positive, its funding verified and every allowlist entry admits a whole collection. |
| OfferHistory.BuildCollectionOfferSnapshot | src/analytics/offer-history.ts:137-164 | The best offer is a highest usable one, the first venue on a tie, and none if and only if none is usable. |
| OfferHistory.ObserveCollectionOffers | src/analytics/offer-history.ts:527-588 | The snapshot shows the higher of the usable MMM bid and the Tensor bid (net, else gross), MMM on a tie, and nothing when neither is positive. |
| OfferHistory.CandidateThresholds | src/analytics/offer-history.ts:216-267 | A candidate rises above a positive price by at least both thresholds. |
| OfferHistory.CandidateExactly | src/analytics/offer-history.ts:216-267 | A candidate is exactly a positive best offer above the previous positive one by more than epsilon and by at least both thresholds. |
| OfferHistory.PendingHasEvidence | src/analytics/offer-history.ts:351-379 | A pending candidate rests on as many consecutive supporting observations as it has confirmations, while armed and below the number required. |
| OfferHistory.BaselineExactly | src/analytics/offer-history.ts:351-393 | The machine compares with the last observation or, while a candidate is pending, with the last one before the unbroken run of candidates. |
| OfferHistory.SightingsCount | src/analytics/offer-history.ts:351-379 | Sightings of one candidate by an armed machine, counted from the first, are its confirmations; at the number required the jump is confirmed and not before. |
| OfferHistory.ConfirmsExactly | src/analytics/offer-history.ts:319-395 | An observation confirms a jump if and only if, counted back from it, the candidate was sighted just as often as required since its first sighting. |
| OfferHistory.DisarmedExactly | src/analytics/offer-history.ts:343-349 | The machine is disarmed exactly while no offer since the last jump has come back to the level it rose from, within tolerance. |
| OfferHistory.ConfirmedJumpEvidence | src/analytics/offer-history.ts:319-395 | A confirmed jump rests on the required number of consecutive observations of one venue, within epsilon of one target, each past both thresholds of one frozen baseline. |
| OfferHistory.ResetBetweenJumps | src/analytics/offer-history.ts:343-349 | Between two confirmed jumps some observation fell to the baseline of the first, within tolerance. |
| OfferHistory.RunPaysForJumps | src/analytics/offer-history.ts:319-395 | When two increases outrun the tolerance, confirmed jumps times (required + 1, required being at least one) never exceed the observations, in any run. |
| OfferHistory.PlateauConfirms | src/analytics/offer-history.ts:351-379 | A plateau of one candidate price over the baseline is confirmed exactly at its required observation. |
| OfferHistory.TwoPlateausBreakTheBound | src/analytics/offer-history.ts:343-379 | Otherwise, if candidates can be confirmed at all, a run of two plateaus confirms more jumps than the bound allows. |
| OfferHistory.JumpBoundExact | src/analytics/offer-history.ts:319-395 | For every configuration, the counting bound holds for all runs if and only if the tolerance is not positive, or the relative threshold is positive and (1 + relative threshold) squared is above 1 + tolerance, or a negative epsilon keeps every candidate from its second confirmation. |
| OfferHistory.ThresholdAboveTolerance | src/analytics/offer-history.ts:302-305 | In particular whenever the relative threshold is above the tolerance, as in the default configuration. |
| Concurrency.LimiterSafety | src/ingestion/concurrency.ts:36-152 | In every run: at most max running, no idle slot while a task waits, every submission in one place, first in first out per priority, only low tasks shed. |
| Concurrency.Conservation | src/ingestion/concurrency.ts:74-103 | Submissions are running, queued or settled, none lost or counted twice. |
| Concurrency.ShedExact | src/ingestion/concurrency.ts:138-144 | Shedding settles queued low tasks past the cutoff and nothing else, and leaves none of them in a queue in time order. |
| Concurrency.DispatchSheds | src/ingestion/concurrency.ts:134-144 | A dispatch gives up a task only if it is low, queued and has waited more than a positive staleLowMs; in time order it gives up every such task. |
| Concurrency.RunKeepsTimeOrder | src/ingestion/concurrency.ts:82-89 | Under a monotone clock every queue stays in time order. |
| Concurrency.DispatchAdmits | src/ingestion/concurrency.ts:134-151 | A dispatch that may use the slot gives up the low tasks that have waited more than staleLowMs and puts exactly one other in the slot: the oldest of the highest priority. |
| Concurrency.ClosedGateDrains | src/ingestion/concurrency.ts:119-151 | A closed gate without a delay empties the queues and starts nothing. |
| Concurrency.ClosedGateRefuses | src/ingestion/concurrency.ts:119-151 | At a closed gate without a delay the overdue tasks are given up and every other queued one is refused. |
| Concurrency.AbortExactly | src/ingestion/concurrency.ts:96-103 | An abort settles exactly the queued tasks. |
| Concurrency.RunCounts | src/ingestion/concurrency.ts:44-51 | In every run the counter of drops is the number of tasks given up as stale. |
| Concurrency.SettledOnce | src/ingestion/concurrency.ts:74-151 | A settled promise never changes again, in any run. |
| Concurrency.Limiter.Run | src/ingestion/concurrency.ts:74-90 | A submission takes a slot, waits in its bucket or is refused at the gate, and keeps the invariant. |
| Concurrency.Limiter.Exec | src/ingestion/concurrency.ts:119-132 | Starting a task, or passing the slot on at a closed gate. |
| Concurrency.Limiter.ShedStaleLow | src/ingestion/concurrency.ts:138-144 | Shedding at a moment gives up only queued low tasks that have waited more than staleLowMs, and all of them when the queue is in time order. |
| Concurrency.Limiter.DispatchNext | src/ingestion/concurrency.ts:134-151 | The free slot goes to the head of the highest non-empty bucket; only tasks overdue at that moment are given up, and all of them under a monotone clock. |
| Concurrency.Limiter.TaskDone | src/ingestion/concurrency.ts:127-131 | A finished task settles with what its function did or as refused, gives its slot back once, and the next one is dispatched. |
| Concurrency.Limiter.AbortQueued | src/ingestion/concurrency.ts:96-103 | Every queued task is settled and counted, and the running ones are untouched. |
| Concurrency.Limiter.TakeStaleDropCount | src/ingestion/concurrency.ts:47-51 | Reported drops add up to all drops. |
| EnrichPool.EnrichSlots.AcquireEnrichSlot | src/enrichment/enrich.ts:389-407 | An arrival runs while fewer than 8 hold a slot, waits while fewer than 12 wait, and is dropped otherwise; the counters equal the holders and the queue. |
| EnrichPool.EnrichSlots.Settle | src/enrichment/enrich.ts:364-387 | The enrichment or the watchdog settles a call, whichever is first, and only once. |
| EnrichPool.EnrichSlots.ReleaseEnrichSlot | src/enrichment/enrich.ts:409-413 | One release per grant, handed to the oldest waiter. |
| FirstListed.FirstListedStore.Arrive | src/analytics/mint-lifecycle.ts:378-387 | A call is ignored without a positive time, skipped when the cache holds one at most as late, and otherwise sent with the cached value it read. |
| FirstListed.FirstListedStore.Upserted | src/analytics/mint-lifecycle.ts:391-401 | The row keeps an earlier time, and otherwise takes the rounded time and the quality of the call, also on a tie. |
| FirstListed.FirstListedStore.RememberBest | src/analytics/mint-lifecycle.ts:402 | The cache takes the smaller of the value read and the one written. |
| FirstListed.RunKeepsInv | src/analytics/mint-lifecycle.ts:373-406 | In every interleaving the stored time only moves earlier and covers all that was written, cached or skipped. |
| FirstListed.Converges | src/analytics/mint-lifecycle.ts:363-406 | When all calls have ended without a failed write, the row is the minimum of the valid observations, with the quality of one that attains it. |
| FirstListed.RoundExactly | src/analytics/mint-lifecycle.ts:400 | The stored time is the nearest integer, the greater one on a tie. |
| FirstListed.RowIsLastEarliest | src/analytics/mint-lifecycle.ts:391-401 | After any run the row is the last committed of the earliest observations, with its quality. |
| FirstListed.NothingSkippedIsEarlier | src/analytics/mint-lifecycle.ts:382-387 | A skipped observation is never earlier than the row, also when other writes fail. |
| FirstListed.CacheMayMoveLater | src/analytics/mint-lifecycle.ts:386-402 | Two overlapping calls move the cached value later while the row keeps the minimum. |
| OrderBook.FilterValid | src/analytics/floor-depth.ts:148-155 | The valid rows, and how many were dropped for a missing mint or an invalid price. |
| OrderBook.ValidRowsExactly | src/analytics/floor-depth.ts:148-155 | A row is kept exactly when it has a mint and a positive price, unchanged; the dropped ones are counted once each. |
| OrderBook.DedupeCheapest | src/analytics/floor-depth.ts:191-195 | The values of the map in insertion order are the deduplicated rows. |
| OrderBook.DedupeExactly | src/analytics/floor-depth.ts:188-195 | Deduplication keeps exactly the first cheapest row of every mint, once. |
| OrderBook.OnePerMint | src/analytics/floor-depth.ts:191-205 | As many asks remain as there are mints. |
| OrderBook.PricesReordered | src/analytics/floor-depth.ts:188-203 | The sorted prices do not depend on the order of the rows. |
| FloorDepth.CountSources | src/analytics/floor-depth.ts:171-180 | The breakdown counts the rows of each market and kind. |
| FloorDepth.CountWithin | src/analytics/floor-depth.ts:234-238 | Count and cost of all asks within a limit. |
| FloorDepth.CountMove | src/analytics/floor-depth.ts:240-252 | Count and cost of the asks before the first one beyond a limit, and whether there is one. |
| FloorDepth.ComputeFloorDepth | src/analytics/floor-depth.ts:138-294 | The whole report, equal to its specification over the sorted prices. |
| FloorDepth.ReportReordered | src/analytics/floor-depth.ts:133-137 | Any reordering of the listings gives the same report. |
| FloorDepth.SummaryMeans | src/analytics/floor-depth.ts:142-283 | Rows are kept, dropped for the mint or dropped for the price, and mints are counted; the spread leads from the floor to the second ask; exactly when the confidence is high or low. |
| FloorDepth.BreakdownMeans | src/analytics/floor-depth.ts:171-181 | The breakdown counts Magic Eden and Tensor listings, MMM and Tensor pool rows, and the rest. |
| FloorDepth.BandsCoincide | src/analytics/floor-depth.ts:219-254 | Depth and move-floor bands coincide, grow with the percentage and contain the floor. |
| FloorDepth.LiftsExactly | src/analytics/floor-depth.ts:240-252 | A purchase lifts the floor beyond the limit if and only if it contains the reported prefix. |
| FloorDepth.MoveIsOptimal | src/analytics/floor-depth.ts:240-252 | The reported cost is the least cost of lifting the floor, and the prefix attains it. |
| FloorDepth.ReportedBands | src/analytics/floor-depth.ts:226-255 | The reported bands are those at 1, 2, 5 and 10 percent above the floor: the asks within are counted and added up, and no cheaper purchase leaves only asks beyond. |
| FloorDepth.CostAdds | src/analytics/floor-depth.ts:232-256 | The cost of a purchase is the sum of its prices. |
| CrossMarket.ComputeFloors | src/analytics/cross-market.ts:161-172 | The three floors in one pass, each attained by a row of its source and kind and undercut by none. |
| CrossMarket.FloorExactly | src/analytics/cross-market.ts:155-172 | A floor is attained by a row of its market and undercut by none; it is missing exactly when the market has no row. |
| CrossMarket.FindOpportunities | src/analytics/cross-market.ts:215-246 | The loop finds what each row offers against the market it is compared with. |
| CrossMarket.StrongerIsOrder | src/analytics/cross-market.ts:247-254 | The comparison is a total preorder that separates different mints. |
| CrossMarket.ComputeCrossMarketGap | src/analytics/cross-market.ts:128-279 | The whole result, equal to its specification. |
| CrossMarket.GapMeans | src/analytics/cross-market.ts:155-271 | The floors, the counts of rows and mints, and when the confidence is high or low. |
| CrossMarket.OfferedExactly | src/analytics/cross-market.ts:209-246 | A mint is offered if and only if its first cheapest row undercuts, by more than the tolerance, all direct rows of the other market: Magic Eden for a Tensor row, Tensor for any other. |
| CrossMarket.OpportunitiesOrdered | src/analytics/cross-market.ts:209-254 | Every opportunity shows its row, the direct floor it is compared with, the gap and the gap as a part of that floor; mints appear once; the greatest part comes first, then the greatest gap, then the mint. |
| CrossMarket.AnyFloorIsLeast | src/analytics/cross-market.ts:194-201 | The cheapest price anywhere is attained by a row and undercut by none. |
| CrossMarket.SummaryReordered | src/analytics/cross-market.ts:155-265 | Floors, counts and confidence never depend on the order of the listings. |
| CrossMarket.OrderFreeExactly | src/analytics/cross-market.ts:122-127 | The opportunities are independent of the order if and only if rows that tie as the cheapest of a mint agree on what they offer. |
| CrossMarket.OrderMatters | src/analytics/cross-market.ts:184-188 | A concrete book on which the order changes the opportunities. |
| MetaplexOnchain.ModPow | src/enrichment/metaplex-onchain.ts:33-42 | Square and multiply computes the power modulo m for a base of either sign; a loop that never runs leaves 1. |
| MetaplexOnchain.EulerCriterion | src/enrichment/metaplex-onchain.ts:68-69 | Modulo a prime that is 5 mod 8, a has a root exactly when its power to half the order is 1. |
| MetaplexOnchain.CurveEquation | src/enrichment/metaplex-onchain.ts:58-64 | For every coefficient and modulus, x and y solve the curve equation if and only if x squared times v is u. |
| MetaplexOnchain.DecodeThenEncode | src/enrichment/metaplex-onchain.ts:48-54 | The y coordinate and the sign bit that are read from 32 bytes encode to the same bytes. |
| MetaplexOnchain.EncodeThenDecode | src/enrichment/metaplex-onchain.ts:48-54 | Reading an encoded point yields its y coordinate and the low bit of its x coordinate. |
| MetaplexOnchain.CheckIsExact | src/enrichment/metaplex-onchain.ts:62-69 | What the last two branches decide is whether the bytes encode a point. |
| MetaplexOnchain.Constants | src/enrichment/metaplex-onchain.ts:25-29 | The constants are 2^255 - 19 and -121665/121666 modulo it, and suit the check. |
| MetaplexOnchain.IsOnCurve | src/enrichment/metaplex-onchain.ts:48-70 | On every curve that suits the check and has a prime modulus, it accepts exactly the encodings of the curve's points. |
| MetaplexOnchain.IsOnEd25519Curve | src/enrichment/metaplex-onchain.ts:48-70 | If 2^255 - 19 is prime, the check accepts exactly the encodings of curve points. |
| MetaplexOnchain.PointsAreEncodable | src/enrichment/metaplex-onchain.ts:48-70 | Every point of the curve, with either sign, has an encoding of the kind that the check accepts. |
| MetaplexOnchain.DeriveMetadataPda | src/enrichment/metaplex-onchain.ts:81-92 | The address is the hash of the largest nonce that is off the curve, and there is none exactly when every nonce is on it. |
| TransactionWalk.DecodeCompactU16 | tools/magiceden-vl-mmm-accept.user.js:168-177 | The loop that shifts bytes off decodes with 32-bit operators and leaves the rest. |
| TransactionWalk.ConsumeInstruction | tools/magiceden-vl-mmm-accept.user.js:196-202 | One instruction is removed. |
| TransactionWalk.ParseALTCount | tools/magiceden-vl-mmm-accept.user.js:181-205 | The walk over any bytes. |
| TransactionWalk.DecodeUndoesEncode | tools/magiceden-vl-mmm-accept.user.js:168-177 | Decoding undoes the compact encoding of every number below 65536 and leaves the remainder. |
| TransactionWalk.CountsTables | tools/magiceden-vl-mmm-accept.user.js:179-205 | The walk over a serialised transaction yields its number of lookup tables, and -1 for a legacy one. |
| LmnftState.DecodeState | src/enrichment/lmnft-state.ts:121-165 | The decoder, every read of which stays inside the buffer. |
| LmnftState.DecodeOfEncode | src/enrichment/lmnft-state.ts:127-161 | Decoding an encoded account returns its owner, collection, supply and minted count at every string length. |
| LmnftState.AcceptsOnlyAccounts | src/enrichment/lmnft-state.ts:109-165 | Whatever is accepted is the encoding of an account with that state. |
| DeferredEmit.SaleEmitter.Insert | src/db/insert.ts:622-681 | A sale with a mint, to be deferred, below the cap takes a slot and races; any other is emitted at once, and one without a mint is finished. |
| DeferredEmit.SaleEmitter.OnEnriched | src/db/insert.ts:683-708 | What an enrichment does in the race and behind a frame, also when the blacklist look-up throws. |
| DeferredEmit.SaleEmitter.OnEnrichFailed | src/db/insert.ts:720-729 | A failed enrichment emits the frame if the race has not been decided. |
| DeferredEmit.SaleEmitter.OnTimeout | src/db/insert.ts:709-718 | The timeout emits the frame and leaves the enrichment to the background. |
| DeferredEmit.SaleEmitter.OnStored | src/db/insert.ts:539-597 | Only a stored application patches a clean sale or removes a blocked one that was emitted. |
| DeferredEmit.SaleEmitter.OnSettled | src/db/insert.ts:730 | The race gives its slot back once. |
| DeferredEmit.StepKeepsInv | src/db/insert.ts:525-733 | Every callback keeps the traces of all sales legal and the counter equal to the slots held. |
| DeferredEmit.EmitProtocol | src/db/insert.ts:653-733 | In every run each sale shows nothing, its frame, or its frame and then one patch or one removal; enrichment is applied at most once; the deferrals in flight stay within the cap. |
| DeferredEmit.DeferredExactly | src/db/insert.ts:622-681 | In every run the frame of a new sale is held back exactly when it has a mint, is to be deferred and fewer races than the cap hold a slot. |
| DeferredEmit.SuppressedExactly | src/db/insert.ts:678-730 | A sale shows no frame after its race if and only if a blocked enrichment won it; every failure still emits. |
| DeferredEmit.EndedIsFinal | src/db/insert.ts:683-730 | In every run a sale whose enrichment failed or was stored is finished: only its slot is still to be returned. |
| DeferredEmit.PatchedExactly | src/db/insert.ts:525-597 | A finished sale was patched if and only if it was enriched clean and stored, and removed if and only if it was found blocked after its frame and its row was deleted. |
| ReplayBuffer.RecentPatches.Remember | src/events/emitter.ts:759-786 | A patch replaces the one of its signature in place, or is appended, and beyond 250 the oldest goes; index and buffer agree after any history. |
| ReplayBuffer.RecentPatches.RebuildIndex | src/events/emitter.ts:780-784 | The rebuilt index maps each signature to its position and holds nothing else. |
| ReplayBuffer.RecentPatches.Snapshot | src/events/emitter.ts:791-793 | The snapshot is the replayed history. |
| ReplayBuffer.ReplayShape | src/events/emitter.ts:750-786 | No signature twice, never past 250, and the last patch is always there. |
| ReplayBuffer.LatestPatchWins | src/events/emitter.ts:743-758 | A late client gets the latest patch ever emitted for each signature in the buffer. |
| ReplayBuffer.NothingLostBelowCap | src/events/emitter.ts:743-786 | Up to the cap, every signature emitted has its latest patch there. |
| RecentSells.Trim | src/enrichment/recent-sell-tracker.ts:41-48 | The loop drops the leading old times. |
| RecentSells.WindowLog.NoteSell | src/enrichment/recent-sell-tracker.ts:50-64 | Noting keeps every key that was never evicted equal to the recent end of its full log. |
| RecentSells.WindowLog.RecentCount | src/enrichment/recent-sell-tracker.ts:81-91 | The count is the count over everything ever noted, for every key that was never evicted. |
| RecentSells.RecentSellTracker.NoteRecentSell | src/enrichment/recent-sell-tracker.ts:50-79 | A sell is noted once for its pair and once for its seller, and not at all without both. |
| RecentSells.RecentSellTracker.GetRecentSellCount | src/enrichment/recent-sell-tracker.ts:81-91 | The pair count agrees with the full log. |
| RecentSells.RecentSellTracker.GetRecentSellerCountAny | src/enrichment/recent-sell-tracker.ts:96-106 | The seller count agrees with the full log. |
| RecentSells.KeyInjective | src/enrichment/recent-sell-tracker.ts:37-39 | Different pairs have different keys when no seller contains the separator. |
| OwnershipLoops.Trim | src/enrichment/ownership-loop-cache.ts:58-64 | The loop drops old entries and keeps the last five. |
| OwnershipLoops.TrimRecent | src/enrichment/ownership-loop-cache.ts:58-64 | Trimming what was kept earlier equals the last five in-window sales of the whole history now. |
| OwnershipLoops.RecordRecent | src/enrichment/ownership-loop-cache.ts:120-121 | Recording at the kept end is recording in the whole history. |
| OwnershipLoops.SearchExactly | src/enrichment/ownership-loop-cache.ts:97-111 | A signal is raised if and only if some sale matches, and describes the closest one. |
| OwnershipLoops.FindLoop | src/enrichment/ownership-loop-cache.ts:97-111 | The backward loop. |
| OwnershipLoops.OwnershipCache.CheckAndRecordOwnership | src/enrichment/ownership-loop-cache.ts:76-124 | The signal is what a search of the last five in-window sales of the whole history finds, unless the mint was evicted or sold out of time order; ignored sales change nothing. |
| ImageRetry.Prune | src/enrichment/image-retry.ts:126-131 | In-place compaction with a write index keeps exactly the recent times. |
| ImageRetry.WindowBound | src/enrichment/image-retry.ts:66-78 | No window of 60 s, wherever it starts, holds more than 50 admissions. |
| ImageRetry.RetryCeiling.Admit | src/enrichment/image-retry.ts:121-150 | A retry is admitted exactly when the log of all admissions holds fewer than 50 of the last 60 s; the log stays within the bound; refusals are counted. |
| ImageRetry.RetryCeiling.ScheduleImageRetry | src/enrichment/image-retry.ts:109-151 | Which calls are scheduled at all. |

## Left out

- PollerFloor.SteadyRunSafety: for runs without a completed catch-up, after which the cursor promises nothing about what is older; `PollerCatchUp` says what remains true then.
- PollerRuns.CursorSafety: for runs with sound outcomes only, because a duplicate that rests on a fetch proves nothing (`DuplicateBeforeStored`); PollerQueue.NothingLost has the same condition.
- Poller oracles: `ingest`, `wasWsNonSale` and the memory of terminal outcomes are parameters that report terminal only when it is true, and `wasRecentlyFetched` and the chain's answers are free; one process per target; one clock value per synchronous stretch; useful-ratio backoff, ticks and logs.
- PollerQueue.OldestServed: retries of items older than the watched one are excluded, because they go back ahead of it; the same holds of PollerQueue.AgedIsServed.
- SellerHoldings: database errors, which the helpers turn into null, are assumed absent; the row is a class, but the promise chain and the single flight of the module are fields of a state value, since awaited statements interleave.
- FirstListed and DeferredEmit: each callback is one method; the promises that order them, and their aliasing, are not modelled.
- DeferredEmit.EmitProtocol: listeners of the event bus are assumed not to throw, and a blacklist look-up gives one answer within one synchronous stretch; the pool-type, resize and image retries behind an application are left out.
- OfferHistory: the bounded store of states, its file and `pickBestCollectionBids` would add easy members.
- EnrichPool: one enrichment per mint is not claimed, since a slot is awaited between the check of the in-flight map and its update (src/enrichment/enrich.ts:442-472).
- FloorDepth and CrossMarket: floating-point rounding, so `roundSol` is the identity on exact prices; the texts of warnings, of which the counts behind them are kept.
- CrossMarket.ComputeCrossMarketGap: the order of equally priced rows in `perMintFloors` follows the input, and only the opportunities are claimed to be ordered independently of it.
- MetaplexOnchain.IsOnEd25519Curve: the primality of 2^255 - 19 is a hypothesis; SHA-256 and base58 are abstract. The check and the derivation take the curve as a parameter, of which the constants of the source are the instance.
- TransactionWalk.ParseALTCount: values beyond 32 bits in malformed input follow the 32-bit operators, and nothing further is claimed about them.
- LmnftState: base58 rendering of keys, the account look-up and its cache.
- RecentSells, OwnershipLoops and ImageRetry: the clock is assumed not to go back, as a parameter of each call; hydration from the database; the retry chain itself, its TTL cache and its timers.
- ReplayBuffer: the other replay caches of the bus, which have no index.
- Wallets, transaction building and signing, the frontend, network access and telemetry.
