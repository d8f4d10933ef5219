# Verification of the data and job core

These modules model the parts of the repository whose correctness depends on loops, retries and
interleavings, and prove what those parts promise. Methods follow the code's loops and state changes and
are proved against specification functions; lemmas prove what the specifications mean.

`dafny verify dfyconfig.toml` checks everything.

| module | what it models |
|---|---|
| `Timestamps`, `Candles` | finite sets of open times, sorting, dictionaries keyed by open time, the timeframe table |
| `HistoryClient` | the OKX history client: page requests with two retry budgets, and the backward cursor walk |
| `HistoryPages` | what one page guarantees whatever the exchange answers |
| `HistoryWalk` | the walk against any exchange (termination, disjoint pages) and against an honest one (completeness) |
| `ForwardPager`, `PagerAgreement` | the older forward pager, and when the two pagers return the same candles |
| `DollarBars` | dollar bars as a greedy split of the rows |
| `JobLock`, `LockKeys` | the Redis job lock as a protocol of any number of processes, a clock and an expiring store; which targets share a lock |
| `Migrations` | the migration runner over any sequence of failing runs |
| `CacheKeys`, `ReadThroughCache` | cache keys and group patterns; the read-through cache as a protocol |
| `SignalPnl`, `Drawdown` | the profit-and-loss position machine, and the maximum drawdown scan |
| `Batches` | sequential and parallel batch processing, and every schedule of the parallel one |
| `ImportIndex` | the dead-module detector's inverted index |
| `Arithmetic`, `Wrappers` | repeated addition; `Option` and `Result` |

## Conventions

Timestamps are integers in milliseconds. Floats are `real`. The exchange, Redis, detectors, migration
functions, loaders and batch processors are parameters: functions of the request number or position that may
answer anything, or steps that may happen at any time. A retry, a pause or a request is counted in the state
of the modelled object, so bounds on them are theorems. "Any run" is any sequence of enabled steps.

`Span(n, tf)` and `Times(n, v)` are `n * tf` and `n * v` written as repeated addition
(`Timestamps.SpanIsProduct`, `Arithmetic.TimesIsProduct`).

## Where the code does something else than one would expect

Each of these is stated by a lemma.

- The backward walk stops at the first empty page, so candles below a gap as long as a page are lost
  (`HistoryWalk.GapLosesCandle`). Candles at or before time zero are never returned, because the exclusive
  lower bound sent is at least 0, and neither are candles of a range shorter than one bar.
  `HistoryWalk.FetchExact` says that nothing else is ever lost, `UnfetchableRanges` gives an example of each.
- The lock excludes leases, not bodies. A second body starts beside a first one exactly when the key is free and
  the first has outlived its lease (`JobLock.OverlapsIffOutlived`, with a run in `BodiesMayOverlap`). A lock for
  a symbol and one for a timeframe of the same text are one lock (`LockKeys.SharedTargets`, `SymbolIsTimeframe`).
- A dry run of the migrations writes: it adopts detected migrations as applied, and marks the base migration
  and everything not applied as planned (`Migrations.DryRunPlans`). A migration whose 'applied' write was lost can
  execute again (`Migrations.LostWriteRepeats`). In the next run it does so exactly when that run is real, gets
  past setup, reconciling and the positions before it, its detector does not find it applied, and its function
  succeeds again (`Migrations.RepeatsIff`).
- Invalidating a group is documented as deleting all of its keys; it keeps every value that was cached
  without a non-empty key part (`CacheKeys.GroupMatchesExactly`, `PartlessSurvives`).
- After a deletion a value loaded before it can still be served to a later call, exactly when at the deletion
  some call had loaded a value for that key and not yet written it (`ReadThroughCache.StaleIffUnsettled`, with a
  run in `StaleLoadSurvives`).
- The profit-and-loss list starts with 0.0, so the maximum drawdown computed from it is always NaN
  (`Drawdown.PnlDrawdownIsNan`). On other series the drop is taken from the highest value so far, which is the
  largest percentage drop exactly when no row sinks below zero after a positive one or the deepest such fall
  starts at the highest value so far (`Drawdown.ScanIsLargestDrop`, `ScanMissesBelowZero`). An entry at price zero makes
  the computation fail on the next row (`SignalPnl.TotalIsTripSum`).
- Parallel batching lets an exception of the saver or the progress callback end everything; sequential batching
  skips to the next batch (`Batches.CollectorsAgree`). With no workers allowed nothing ever starts
  (`Batches.StallsOnlyWithoutWorkers`).
- The docstring of the bar builder says that the trailing partial bar is marked; the code emits it like any
  other (`DollarBars.NoLookAhead`). The index is documented to be without duplicates; equal timestamps pass
  (`DollarBars.BuildDollarBars`).

## Model

| member | source | states |
|---|---|---|
| `Timestamps.AscendingUnique` | src/candles/ccxt_okx_adapter.py:127 | the ascending listing of a set of open times is the only strictly increasing one |
| `Timestamps.AscendingIncreases` | src/candles/ccxt_okx_adapter.py:127 | sorted open times increase strictly: no duplicates in any result |
| `Timestamps.SpacedCount` | src/candles/ccxt_okx_adapter.py:138-151 | a window of `n` bars holds at most `n` candles at bar distance, so the row limit never cuts a page window |
| `Candles.ByTsKeepsLast` | src/candles/ccxt_okx_adapter.py:213-235 | storing rows by open time keeps exactly the last row of each open time |
| `Candles.InTsOrderSorts` | src/candles/ccxt_okx_adapter.py:235 | listing a dictionary by sorted key gives its values in order of open time |
| `Candles.ByTsOfInTsOrder` | src/candles/ccxt_okx_adapter.py:170-183 | listing a dictionary in order and storing it again gives it back |
| `HistoryClient.SlotsByDivision` | src/candles/ccxt_okx_adapter.py:151 | the expected row count, a floored quotient, is the number of bars that fit the window; zero for an empty window |
| `HistoryClient.BackoffIsPower` | src/candles/ccxt_okx_adapter.py:249-250 | the delay that doubles with each attempt is the base times a power of two |
| `HistoryClient.Client.NormalizeRows` | src/candles/ccxt_okx_adapter.py:213-235 | the result is the in-window part of the rows by open time, a later row replacing an earlier one, ascending |
| `HistoryClient.Client.BackoffSeconds` | src/candles/ccxt_okx_adapter.py:249-250 | the closed form in the code equals the doubling series |
| `HistoryClient.Client.Absorb` | src/candles/ccxt_okx_adapter.py:170-183 | merging one answer adds exactly its in-window rows, and the new value wins |
| `HistoryClient.Client.Attempt` | src/candles/ccxt_okx_adapter.py:153-211 | one iteration either ends the page with the outcome its answers determine, or spends one unit of exactly one budget and sleeps that budget's delay |
| `HistoryClient.Client.FetchTask` | src/candles/ccxt_okx_adapter.py:151-211 | the retry loop ends at the first request that is not to be retried, with the merged rows or that request's failure, and the time slept is that of the retries made |
| `HistoryClient.Client.FetchPage` | src/candles/ccxt_okx_adapter.py:129-211 | query bounds, expected count, candles, oldest, newest and status of a page, or the failure of its last request |
| `HistoryClient.Client.SetDefaults` | src/candles/ccxt_okx_adapter.py:113-114 | `setdefault` over a page keeps what is already collected |
| `HistoryClient.Client.NextPage` | src/candles/ccxt_okx_adapter.py:101-112 | the page fetched is the window below the cursor, never below the start and never longer than the page limit |
| `HistoryClient.Client.TakePage` | src/candles/ccxt_okx_adapter.py:113-125 | the page's candles join those collected, and the walk goes on exactly when the page had candles and the next cursor is at or above the start; the cursor falls strictly |
| `HistoryClient.Client.WalkPage` | src/candles/ccxt_okx_adapter.py:100-125 | one iteration serves the next page of the walk, or reports the failure of its last request |
| `HistoryClient.Client.WalkPages` | src/candles/ccxt_okx_adapter.py:99-127 | the cursor loop ends against any exchange, having made exactly the requests and pauses of consecutive pages, and returns their union ascending, or the failure of the last page |
| `HistoryClient.Client.FetchRange` | src/candles/ccxt_okx_adapter.py:84-127 | empty range: no request; unknown timeframe: an error and no request; otherwise the walk of the timeframe's length with the exchange's bar name |
| `HistoryPages.StopIsUnique` | src/candles/ccxt_okx_adapter.py:153-211 | the answers determine which request ends a page |
| `HistoryPages.PageEnds` | src/candles/ccxt_okx_adapter.py:153-211 | whatever the answers, some request ends the page |
| `HistoryPages.RetriesWithinBudgets` | src/candles/ccxt_okx_adapter.py:156-168 | each request before the last counts against exactly one budget, and neither is exceeded |
| `HistoryPages.PageRequestBound` | src/candles/ccxt_okx_adapter.py:153-211 | a page makes at most 1 + transport retries + partial retries requests |
| `HistoryPages.FailureEnds` | src/candles/ccxt_okx_adapter.py:57-63 | a fatal failure ends the page at once; a timeout, rate limit or transient failure ends it if and only if the transport budget is spent |
| `HistoryPages.RecoversFromFailures` | src/candles/ccxt_okx_adapter.py:156-211 | such failures within the budget and then an answer that fills the window: the page is OK with that answer, after exactly these requests and the pauses of one series |
| `HistoryPages.FatalIsLast` | src/candles/ccxt_okx_adapter.py:161-166 | a fatal failure after them is the page's last request and its outcome |
| `HistoryPages.BudgetRunsOut` | src/candles/ccxt_okx_adapter.py:161-168 | with nothing but such failures the page gives up after the whole transport budget and not before |
| `HistoryPages.StatusCounts` | src/candles/ccxt_okx_adapter.py:237-243 | EMPTY, PARTIAL and OK are no rows, fewer than expected, and the rest |
| `HistoryPages.PageExtremes` | src/candles/ccxt_okx_adapter.py:178-208 | the oldest and newest time a page reports are those of its first and last candle |
| `HistoryPages.HistoryBarNames` | src/candles/ccxt_okx_adapter.py:38-42 | days, weeks and months have their own names at the history endpoint, other bars keep theirs |
| `HistoryPages.TimeframeLengths` | src/candles/domain/timeframes.py:3-14 | the supported timeframes and their lengths; a month is thirty days |
| `HistoryPages.PausesAreTwoSeries` | src/candles/ccxt_okx_adapter.py:164-168 | the time slept depends only on how many failures and partial answers there were, not on their order |
| `HistoryPages.DoublingsClosedForm` | src/candles/ccxt_okx_adapter.py:249-250 | the first `n` delays sum to the `n`-th delay less the base |
| `HistoryPages.PageSleepBound` | src/candles/ccxt_okx_adapter.py:153-211 | a page sleeps at most base * (2^T + 2^P - 2) seconds, for any mix of failures and partial answers |
| `HistoryPages.RangeRequestBound` | src/candles/ccxt_okx_adapter.py:99-211 | a range makes at most 1 + transport retries + partial retries requests per page |
| `HistoryPages.FetchRequestBound` | src/candles/ccxt_okx_adapter.py:84-211 | the same for every fetch, a failed one's last page included |
| `HistoryPages.RangeSleepBound` | src/candles/ccxt_okx_adapter.py:99-211 | a range sleeps at most base * (2^T + 2^P - 2) seconds per page |
| `HistoryPages.RowsAreKept` | src/candles/ccxt_okx_adapter.py:170-185 | collected open times only grow, so a page that was PARTIAL or OK never becomes EMPTY |
| `HistoryPages.PageIsUnion` | src/candles/ccxt_okx_adapter.py:170-183 | an open time is in the page if and only if some answer carries it in the window; its candle is the last such row of the last such answer |
| `HistoryPages.GridIsSpaced` | src/candles/ccxt_okx_adapter.py:99-127 | candles on the grid of a timeframe lie at least a bar apart, as the completeness theorems ask |
| `HistoryPages.OkMeansEverySlot` | src/candles/ccxt_okx_adapter.py:237-243 | on a page of whole bars with grid rows, status OK holds if and only if every slot is present |
| `HistoryWalk.SetDefaultNeverCollides` | src/candles/ccxt_okx_adapter.py:105-114 | a page shares no open time with earlier pages, whatever the answers: `setdefault` never finds its key taken |
| `HistoryWalk.CursorFalls` | src/candles/ccxt_okx_adapter.py:116-125 | the next cursor is strictly below the current one, so the stall guard never fires |
| `HistoryWalk.WalkLength` | src/candles/ccxt_okx_adapter.py:99-125 | against any exchange the number of pages is at most the range in milliseconds less a bar, plus one |
| `HistoryWalk.WalkLengthOnGrid` | src/candles/ccxt_okx_adapter.py:99-125 | with candles and range end at bar distance there are at most (end - start) / tf pages |
| `HistoryWalk.HonestAnswer` | src/candles/ccxt_okx_adapter.py:138-150 | an honest answer to a page's query holds exactly the stored candles of the page window with a positive time |
| `HistoryWalk.HonestExchangeExists` | src/candles/ccxt_okx_adapter.py:138-150 | for any stored candles some exchange is honest about them and always answers, so the completeness theorems speak of something |
| `HistoryWalk.GapLosesCandle` | src/candles/ccxt_okx_adapter.py:116-117 | a gap of a page or more above stored data makes the walk miss a stored candle |
| `HistoryWalk.NoGapCompletes` | src/candles/ccxt_okx_adapter.py:99-127 | without such a gap an ended walk has collected every reachable stored candle |
| `HistoryWalk.FetchExact` | src/candles/ccxt_okx_adapter.py:84-127 | against an exchange that is honest about the instrument and bar asked for, a successful fetch returns exactly the stored candles of the range, ascending and once, if and only if no page-long gap lies above stored data, no stored time is at or below zero, and a bar fits the range or nothing is stored |
| `HistoryWalk.FetchIsUpperPart` | src/candles/ccxt_okx_adapter.py:84-127 | complete or not, what is returned is everything reachable from some point of the range up |
| `HistoryWalk.OnlyGapsLose` | src/candles/ccxt_okx_adapter.py:138-150 | for a start at or after the first bar and room for a bar, a range is fetched completely if and only if there is no gap |
| `HistoryWalk.UnfetchableRanges` | src/candles/ccxt_okx_adapter.py:99-150 | three concrete ranges that cannot be fetched completely, one for each condition |
| `ForwardPager.Adapter.TakeRows` | src/candles/ccxt_okx_adapter.py:552-567 | of one answer, rows of the range join unless their time is taken, and the newest time seen is that of all rows |
| `ForwardPager.Adapter.WalkForward` | src/candles/ccxt_okx_adapter.py:535-576 | the loop ends against any feed, having made exactly the requests that its answers call for; a failed request fails the range |
| `ForwardPager.Adapter.GetHistoryCandles` | src/candles/ccxt_okx_adapter.py:478-576 | empty range: no request; unsupported instrument: an error and no request; otherwise the walk over the instrument's series with the timeframe's length, one minute for an unknown one |
| `ForwardPager.SplitIsDashed` | src/candles/ccxt_okx_adapter.py:47 | splitting an instrument gives dash-free parts that join to it again |
| `ForwardPager.SplitOfDashed` | src/candles/ccxt_okx_adapter.py:47 | and it undoes joining dash-free parts |
| `ForwardPager.SupportedInstruments` | src/candles/ccxt_okx_adapter.py:45-53 | exactly the instruments BASE-QUOTE-SWAP with non-empty dash-free names are supported, as BASE/QUOTE:QUOTE |
| `ForwardPager.SeriesNamed` | src/candles/ccxt_okx_adapter.py:28-34 | a request names the instrument, its symbol and the exchange's spelling of the timeframe |
| `ForwardPager.SinceRises` | src/candles/ccxt_okx_adapter.py:569-574 | `since` rises by a bar or more per answer, so the progress guard never fires |
| `ForwardPager.ForwardLength` | src/candles/ccxt_okx_adapter.py:535-576 | every request lies at least a bar after the one before it and before the end, whatever the answers |
| `ForwardPager.HonestHop` | src/candles/ccxt_okx_adapter.py:552-574 | one honest answer extends "everything stored below `since`" to everything stored below the next `since` |
| `ForwardPager.MarketFeeds` | src/candles/ccxt_okx_adapter.py:530-549 | every request asks for 100 rows of the series, so an exchange that honours its limit is an honest feed |
| `ForwardPager.HonestFeedExists` | src/candles/ccxt_okx_adapter.py:541-549 | for any stored candles some feed is honest about them and always answers |
| `ForwardPager.ForwardExact` | src/candles/ccxt_okx_adapter.py:535-576 | against an honest feed a successful forward fetch returns exactly the stored candles of the range, gaps or not: time, prices and volume of each, in order, with the two extra columns empty |
| `PagerAgreement.PagersAgree` | src/candles/ccxt_okx_adapter.py:84-576 | on the same stored candles both pagers return lists with the same times, prices and volumes if and only if the range is fetchable backward |
| `DollarBars.MakeConfig` | src/core/bars.py:49-65 | a configuration is accepted if and only if its dollar value and contract value are positive and at least one row is asked for; the first violation is the error |
| `DollarBars.Gather` | src/core/bars.py:185-201 | the seven running variables describe the open rows with the new row added |
| `DollarBars.EmitBar` | src/core/bars.py:202-223 | the running variables make the bar that folding the gathered rows makes |
| `DollarBars.TakeRow` | src/core/bars.py:185-223 | one iteration keeps: emitted bars fold the segments cut off so far, and the rest still splits like the whole |
| `DollarBars.AggregateBars` | src/core/bars.py:151-254 | the loop's bars are the folds of the segments of the greedy split |
| `DollarBars.ValidateInput` | src/core/bars.py:257-274 | a required column is missing; else the index is not time; else some row lies before an earlier one; else the frame is valid, equal times included |
| `DollarBars.MonotonicIff` | src/core/bars.py:270-274 | comparing neighbours decides whether all rows are in time order |
| `DollarBars.BuildDollarBars` | src/core/bars.py:75-126 | invalid input is that error; otherwise the bars of the greedy split by turnover, none for no rows |
| `DollarBars.CutOffClosed` | src/core/bars.py:202-223 | rows that first meet both thresholds at their last row are a segment, whatever follows |
| `DollarBars.SegmentsAreGreedy` | src/core/bars.py:185-241 | the segments concatenate to the input; every one but possibly the last meets both thresholds, and no proper prefix of any does |
| `DollarBars.GreedyIsUnique` | src/core/bars.py:185-241 | any split with these properties is that split |
| `DollarBars.Conservation` | src/core/bars.py:151-254 | volume, turnover and row count summed over the bars are those of the input |
| `DollarBars.BuiltTurnover` | src/core/bars.py:129-148 | the turnovers of built bars sum to the rows' volume * contract value * close, volume * close, or volume, by the configured unit |
| `DollarBars.BuiltBarsRule` | src/core/bars.py:75-254 | the frame falls into consecutive parts, one for each bar, with its open, close, extremes, volume, turnover, span and count; every part but the last meets both thresholds, measured by these products, and no proper prefix of any part does |
| `DollarBars.DurationTruncates` | src/core/bars.py:202-223 | a bar's duration is the whole seconds between its first and last row, truncated toward zero |
| `DollarBars.Resume` | src/core/bars.py:174-247 | going on from the rows pending after a prefix gives the same split as one run over everything |
| `DollarBars.NoLookAhead` | src/core/bars.py:174-247 | the closed bars of a prefix are the first bars of the whole input; the bars of a prefix are its closed ones and at most one partial bar |
| `DollarBars.HighLowExtremes` | src/core/bars.py:188-199 | a bar's high and low are attained by its rows and bound them all |
| `DollarBars.BarEnvelope` | src/core/bars.py:188-223 | rows with low <= open, close <= high give bars with the same envelope |
| `DollarBars.SpansOfBars` | src/core/bars.py:202-241 | rows in time order give bars that end no earlier than they start and do not overlap |
| `DollarBars.SpansOfBuiltBars` | src/core/bars.py:257-274 | the validation of the input is enough for ordered bar spans |
| `DollarBars.ClosedBarsBound` | src/core/bars.py:202-223 | with non-negative turnover, closed bars times the dollar value is at most the total turnover |
| `Arithmetic.TimesIsProduct` | src/core/bars.py:202-223 | the repeated sum in `ClosedBarsBound` is the product |
| `JobLock.StepKeepsInv` | src/pklpo_platform/distributed_lock.py:39-158 | every step of any process, the clock or Redis keeps: ids differ, attempts are counted, an unexpired unreleased lease is in the store under its owner's id, and whatever carries an id is that owner's lease |
| `JobLock.RunKeepsInv` | src/pklpo_platform/distributed_lock.py:39-158 | so does every run |
| `JobLock.MutualExclusion` | src/pklpo_platform/distributed_lock.py:39-56 | after any run at most one process holds an unexpired lease on a key, and the store names that process |
| `JobLock.BodyNeedsSet` | src/pklpo_platform/distributed_lock.py:39-56 | a process is in the body only after a successful SET of its own within its attempts; a conflict means all attempts were used and none succeeded |
| `JobLock.EntersIffFree` | src/pklpo_platform/distributed_lock.py:46-52 | an attempt enters if and only if the key is free, and then no other process holds a lease on it |
| `JobLock.ReleaseIsSafe` | src/pklpo_platform/distributed_lock.py:59-72 | a release removes nothing but the releaser's own live lease, a stale one removes nothing, and a delivered one leaves nothing live under its id |
| `JobLock.LeaseIsFixed` | src/pklpo_platform/distributed_lock.py:46-52 | the expiry of a lease never moves after its SET |
| `JobLock.ArgumentsKept` | src/pklpo_platform/distributed_lock.py:102-127 | key, id, timeout and number of attempts of a process are those it began with |
| `JobLock.SetTakesForTimeout` | src/pklpo_platform/distributed_lock.py:51 | a SET that finds the key free, heard or not, stores exactly the id with an expiry of now plus the timeout the process was begun with, and leaves other keys alone |
| `JobLock.LeaseLasts` | src/pklpo_platform/distributed_lock.py:51-72 | for that whole time, in any run in which the process does not release, the key carries its id, and no other SET on the key succeeds or changes the store |
| `JobLock.TicksAddUp` | src/pklpo_platform/distributed_lock.py:51 | the clock moves by exactly what the ticks of a run say |
| `JobLock.AnythingMayHappen` | src/pklpo_platform/distributed_lock.py:39-158 | the runs considered leave out nothing: time, expiry, new processes, crashes and lost or failing commands are possible at any time |
| `JobLock.LeaseRunsOut` | src/pklpo_platform/distributed_lock.py:75-158 | crashed or not, a holder's id is live nowhere from `timeout` after any moment at which it had its lease |
| `JobLock.OverlapsIffOutlived` | src/pklpo_platform/distributed_lock.py:46-56 | in every reachable state an attempt puts a second body on its key if and only if the key is free and another process in the body on it has outlived its lease |
| `JobLock.BodiesMayOverlap` | src/pklpo_platform/distributed_lock.py:155-158 | a run in which two processes are in the body at once, after the first lease expired |
| `JobLock.Cluster.Elsewhere` | src/pklpo_platform/distributed_lock.py:54-56 | while a process sleeps or works, any steps of others make a run that leaves the process itself unchanged |
| `JobLock.Cluster.Round` | src/pklpo_platform/distributed_lock.py:49-55 | one SET: not heard ends the loop with nothing, heard on a free key ends it with the lock, otherwise the next attempt is due after others ran |
| `JobLock.Cluster.Acquire` | src/pklpo_platform/distributed_lock.py:39-56 | the attempt loop, with anything happening during its sleeps, is a run with one SET per attempt made; success: the last found the key free; conflict: all attempts were made and each found it taken; failure: the last was not heard; it sleeps once between two attempts and never after the last |
| `JobLock.Cluster.WorkAndRelease` | src/pklpo_platform/distributed_lock.py:155-158 | the run ends with the release; if it works, heard or not, nothing live remains under this id |
| `JobLock.Cluster.JobLock` | src/pklpo_platform/distributed_lock.py:111-158 | the context manager is a run whose outcome is decided by its SET commands, and, once in the body, by whether the release was heard; its lease lasts from its last SET for the timeout given |
| `LockKeys.SharedIff` | src/pklpo_platform/distributed_lock.py:104-109 | targets with colon-free parts share a lock if and only if their non-empty parts are the same list |
| `LockKeys.SharedTargets` | src/pklpo_platform/distributed_lock.py:104-109 | for named jobs: the same job, and the same texts of symbol and timeframe, or one only a symbol and the other only a timeframe of the same text; absent and empty are alike |
| `LockKeys.LockKeyText` | src/pklpo_platform/distributed_lock.py:104-109 | a lock's key is the prefix, `lock`, the job and the symbol and timeframe given, with colons between |
| `LockKeys.SymbolIsTimeframe` | src/pklpo_platform/distributed_lock.py:104-109 | a lock for a symbol and one for a timeframe of the same text are one lock |
| `LockKeys.LockIsNotCached` | src/pklpo_platform/redis_client.py:64-70 | no lock key is a cache key, whatever the parts |
| `Migrations.Runner.RecordStatus` | src/db/migration_runner.py:246-290 | the upsert sets one row's status, raises the attempt of an existing row by one, and changes nothing else |
| `Migrations.Runner.Reconcile` | src/db/migration_runner.py:214-234 | the loop adopts what the detectors find, in order, up to the first read, detector or write that raises; `ReconcileAt` says which rows change |
| `Migrations.Runner.Visit` | src/db/migration_runner.py:315-345 | one iteration of the main loop, real or dry, is one step of the whole run, or the exception that ends it |
| `Migrations.Runner.RunAll` | src/db/migration_runner.py:293-361 | table, execution log and outcome of a real or dry run under any failures |
| `Migrations.ReconcileOnlyRaises` | src/db/migration_runner.py:214-234 | reconciling leaves every applied row as it is |
| `Migrations.ReconcileAt` | src/db/migration_runner.py:214-234 | a position is adopted if and only if it is not the base one, not applied, found by its detector and before the stop; every other row stays |
| `Migrations.ReconcileEnds` | src/db/migration_runner.py:214-234 | reconciling ends normally if and only if no position raises, seen from the table at its beginning |
| `Migrations.MigrateApplies` | src/db/migration_runner.py:315-345 | a stop at a position leaves every earlier one applied, that one failed if its function or record failed, and later ones as they were; a normal end leaves all applied |
| `Migrations.AttemptsCounted` | src/db/migration_runner.py:246-345 | a run raises the attempt of each due migration it gets to by exactly one, starting at one, whether it succeeds or fails |
| `Migrations.MigrateLog` | src/db/migration_runner.py:328-345 | a loop only appends to the log: due positions up to the stop, unrecorded only at the stop itself |
| `Migrations.MigrateLogAscends` | src/db/migration_runner.py:315-345 | one run executes in strictly increasing registry order |
| `Migrations.LoggedIff` | src/db/migration_runner.py:315-345 | the loop executes a position with success if and only if it gets there, the position is due and its function succeeds |
| `Migrations.ReachedIff` | src/db/migration_runner.py:315-345 | with earlier non-base migrations applied, it gets there if and only if their status reads, its own, and the base migration cause no stop |
| `Migrations.RunLogsIff` | src/db/migration_runner.py:293-361 | what a run executes: real, past setup and reconciling, reached, base or neither applied nor found, and succeeding; and nothing else |
| `Migrations.SetupNeeded` | src/db/migration_runner.py:300-309 | a run ends in setup if and only if the table cannot be set up and some migration is not the base one; then nothing changed |
| `Migrations.AppliedStays` | src/db/migration_runner.py:293-361 | no run, real or dry, lowers an applied row other than the base migration's |
| `Migrations.PlanAt` | src/db/migration_runner.py:315-326 | planning marks exactly the positions a real run would have to do before the first failing read or write, and leaves the other rows alone |
| `Migrations.DryRunPlans` | src/db/migration_runner.py:311-326 | after a dry run that got past reconciling a row is planned if its migration comes before the stop and is the base one or was not applied after reconciling; every other row is as reconciling left it |
| `Migrations.DryRunIsHarmless` | src/db/migration_runner.py:321-326 | a dry run executes nothing and lowers no applied row but the base migration's |
| `Migrations.RunApplies` | src/db/migration_runner.py:293-361 | a run that ends normally leaves all applied; one stopped in the main loop leaves earlier ones applied and executes no later one |
| `Migrations.RealRunKeepsInv` | src/db/migration_runner.py:315-345 | a run keeps: executions so far follow the registry, and everything below them is applied |
| `Migrations.RunKeepsInv` | src/db/migration_runner.py:293-361 | so does any run, dry, stopped by the setup, a detector or a migration |
| `Migrations.RunsInOrder` | src/db/migration_runner.py:293-361 | over any sequence of runs executions of non-base migrations follow registry order and no recorded one happens again |
| `Migrations.RunsOnlyOnce` | src/db/migration_runner.py:293-361 | if no 'applied' write is lost, the log of successful non-base executions over any sequence of runs is duplicate-free and strictly increasing |
| `Migrations.LosesRecordIff` | src/db/migration_runner.py:328-345 | a run loses the record of a success exactly when it executes the migration with success and the 'applied' write fails |
| `Migrations.LostRecordLeaves` | src/db/migration_runner.py:328-345 | a run that loses the record of a success leaves every earlier migration applied and that one not |
| `Migrations.RepeatsIff` | src/db/migration_runner.py:214-345 | the next run executes it again if and only if it is real, setup and reconciling go through, the detector does not find it, the reads and the base migration up to it cause no stop, and its function succeeds |
| `Migrations.LostWriteRepeats` | src/db/migration_runner.py:328-345 | two runs in which a migration succeeds twice because the first record of it was lost |
| `CacheKeys.JoinedInjective` | src/pklpo_platform/redis_client.py:64-70 | joining non-empty colon-free segments can be undone |
| `CacheKeys.KeyInjective` | src/pklpo_platform/redis_client.py:64-70 | requests with colon-free parts share a key if and only if group and non-empty parts are the same |
| `CacheKeys.KeyText` | src/pklpo_platform/cache.py:46-81 | a key is the prefix, `cache`, the group's name and the part, with colons between |
| `CacheKeys.MatchesIff` | src/pklpo_platform/cache.py:150-155 | a key matches a group's pattern if and only if it is the group's prefix and any text |
| `CacheKeys.GroupMatchesExactly` | src/pklpo_platform/cache.py:150-160 | a group's scan pattern matches a request's key if and only if the request is of that group and has a non-empty part |
| `CacheKeys.PartlessSurvives` | src/pklpo_platform/cache.py:150-160 | no group pattern matches a key without parts |
| `ReadThroughCache.Cache.GetCached` | src/pklpo_platform/cache.py:62-132 | with anything happening in between, the cache answers if and only if the key is live when the GET takes effect and the text parses, with the value stored then; otherwise the answer is the loader's and the value is stored if the SET works; Redis failures never surface |
| `ReadThroughCache.Cache.Read` | src/pklpo_platform/cache.py:83-117 | a hit if and only if a live value is read and parses; the hit counter rises for a text read, the miss counter for every read that is not a hit |
| `ReadThroughCache.Cache.LoadAndStore` | src/pklpo_platform/cache.py:105-130 | the loader's answer is returned whether or not it could be stored; stored, it is in the store for the ttl of its group |
| `ReadThroughCache.Cache.Invalidate` | src/pklpo_platform/cache.py:135-173 | exactly the one key, or exactly the scanned batches up to the one at which Redis fails, are deleted, with steps of others before each batch |
| `ReadThroughCache.ScanAlone` | src/pklpo_platform/cache.py:153-160 | a scan with nothing in between takes exactly the scanned keys out of the store |
| `ReadThroughCache.Provenance` | src/pklpo_platform/cache.py:81-132 | after any run a returned value is that of the call's own loader run, or of one for a request with the same key whose write was younger than its ttl when read |
| `ReadThroughCache.AnythingMayHappen` | src/pklpo_platform/cache.py:81-160 | the runs considered leave out nothing: time, expiry, deletions, new calls, failing reads, loaders and writes are possible at any time |
| `ReadThroughCache.ServedForTtl` | src/pklpo_platform/cache.py:51-59 | a written value whose key is neither written nor deleted since is read back exactly until the time set for its group is over, and never from then on |
| `ReadThroughCache.TicksAddUp` | src/pklpo_platform/cache.py:119-122 | the clock moves by exactly what the ticks of a run say |
| `ReadThroughCache.CleanProvenance` | src/pklpo_platform/cache.py:51-132 | with colon-free parts that request has the same group and parts, so the ttl is the call's own group's |
| `ReadThroughCache.CountersAreRuns` | src/pklpo_platform/cache.py:83-117 | in each process the miss counter is the number of its loader runs: finished, failed or in progress; the hit counter is the number of its calls answered from the cache plus the texts that did not parse |
| `ReadThroughCache.InvalidationHolds` | src/pklpo_platform/cache.py:135-160 | after a deletion, in any run, a call begun later gets from the cache only values written since |
| `ReadThroughCache.StaleIffUnsettled` | src/pklpo_platform/cache.py:81-160 | in every reachable state, with positive ttls, a value loaded before a deletion can be served to a call begun after it if and only if at the deletion some call has loaded a value for the key and not written it |
| `ReadThroughCache.StaleLoadSurvives` | src/pklpo_platform/cache.py:105-130 | for every request, a run in which a value loaded before a deletion is written after it and answers a later call |
| `ReadThroughCache.OtherGroupsUntouched` | src/pklpo_platform/cache.py:150-160 | invalidating a group leaves entries of other groups, and its own entries without parts, as they were |
| `ReadThroughCache.GroupInvalidated` | src/pklpo_platform/cache.py:150-160 | a complete scan removes an entry if and only if it is of that group and has a non-empty part |
| `SignalPnl.CalcPnl` | src/backtest/metrics.py:51-95 | the loop's list, total or division error are those of the position machine |
| `SignalPnl.ShortReturn` | src/backtest/metrics.py:74-93 | the short formula is the negated relative move |
| `SignalPnl.TripIsMatched` | src/backtest/metrics.py:60-95 | a round trip runs from the first entering signal to the first opposite one after it |
| `SignalPnl.RunByTrip` | src/backtest/metrics.py:60-95 | a flat run is its first round trip followed by the run after it |
| `SignalPnl.TotalIsTripSum` | src/backtest/metrics.py:51-95 | the total is the sum over closed trips of signed return less commission; the computation fails if and only if some entry at price zero is followed by another row |
| `SignalPnl.CommissionPerTrip` | src/backtest/metrics.py:74-93 | commission is paid once per closed trip |
| `SignalPnl.TotalByCommission` | src/backtest/metrics.py:74-93 | total(c) = total(0) - c * closed trips on every input, and failing does not depend on commission |
| `SignalPnl.NegationSymmetry` | src/backtest/metrics.py:60-95 | without commission, negating every signal negates the whole list and the total |
| `SignalPnl.ListIsMarks` | src/backtest/metrics.py:60-95 | every list element: zero outside trips and on entries, the open position's return inside, less commission on the close |
| `SignalPnl.ListStartsAtZero` | src/backtest/metrics.py:60-71 | the first list element is 0.0 on all inputs |
| `Drawdown.RunningMaxIs` | src/backtest/metrics.py:216-217 | each running maximum is one of the values so far and bounds them all |
| `Drawdown.NanIffReachesZero` | src/backtest/metrics.py:213-221 | the result is NaN if and only if the cumulative series is zero at some row before which it is only negative |
| `Drawdown.RowCovers` | src/backtest/metrics.py:218 | a row's drop covers the fall from an earlier positive value if and only if the row is not negative or that value is the running maximum |
| `Drawdown.ScanAttained` | src/backtest/metrics.py:218-221 | the result is the largest row drop: zero, or the fall of that row from its peak |
| `Drawdown.ScanIsPeakFall` | src/backtest/metrics.py:203-221 | whenever it is a number, the scan is the largest fall from a positive peak over all pairs of peak and later row, and zero without one |
| `Drawdown.ScanIsLargestDrop` | src/backtest/metrics.py:203-221 | with some positive row and a number as result, it is the largest drop over all pairs of rows if and only if no row sinks below zero after a positive one, or the deepest such fall starts at the highest value so far |
| `Drawdown.ScanMissesBelowZero` | src/backtest/metrics.py:203-221 | a series that goes negative, on which a pair drops by more than the result |
| `Drawdown.PnlDrawdownIsNan` | src/backtest/metrics.py:261-267 | the drawdown of a profit-and-loss list is NaN on every non-empty input |
| `Batches.SlicesPartition` | src/utils/batch_processor.py:52-55 | the slices from a start on concatenate to the items from there; none is empty, all but the last are full |
| `Batches.SlicesCover` | src/utils/batch_processor.py:52-55 | the slices of a list concatenate to the whole list; with a negative size there are none |
| `Batches.BatchSizeIrrelevant` | src/utils/batch_processor.py:30-142 | for a processor that lists one result per item and quiet hooks both methods return the results of all items in order, whatever the batch size |
| `Batches.ItemsComeBack` | src/utils/batch_processor.py:30-142 | a processor that lists its batch gives exactly the items back |
| `Batches.FirstRaiseDecides` | src/utils/batch_processor.py:121-142 | in parallel the first raising save, tried for true results only and so not for an empty list, or raising report decides the error |
| `Batches.NoRaiseNoError` | src/utils/batch_processor.py:121-142 | without one there is no error |
| `Batches.LenientContributions` | src/utils/batch_processor.py:52-83 | sequentially each batch adds its items, or nothing if the processor or a save raised |
| `Batches.CollectorsAgree` | src/utils/batch_processor.py:52-142 | parallel collecting succeeds if and only if no saver or callback raises, and then both ways return the in-order concatenation of the succeeding batches |
| `Batches.AnySchedule` | src/utils/batch_processor.py:104-122 | in every schedule at most `max_workers` processors are in flight, and whatever the completion order each task ends with its own batch's outcome |
| `Batches.NeverStuck` | src/utils/batch_processor.py:110-119 | with a worker allowed, some task can always move until all are done |
| `Batches.StallsOnlyWithoutWorkers` | src/utils/batch_processor.py:110-119 | the tasks stall if and only if no worker is allowed, and then nothing begins |
| `Batches.BatchProcessor.ProcessBatches` | src/utils/batch_processor.py:30-83 | the sequential loop: a failing processor or saver loses the batch, a failing callback does not |
| `Batches.BatchProcessor.Gather` | src/utils/batch_processor.py:110-122 | any order of admissions and completions under the semaphore gathers the outcomes in task order; without workers nothing is gathered unless there is nothing to do |
| `Batches.BatchProcessor.ProcessBatchesParallel` | src/utils/batch_processor.py:85-142 | the concurrent form: failed batches are skipped, the first raising saver or callback ends the call with its error, and without workers a call with batches is stuck |
| `ImportIndex.AddFile` | tools/dead_module_detector.py:107-112 | adding a file makes the index answer like a scan of one file more, in whatever order its ids come |
| `ImportIndex.BuildIndex` | tools/dead_module_detector.py:107-112 | looking up an id in the index gives what scanning all files for it gives |
| `ImportIndex.ReferrersAre` | tools/dead_module_detector.py:107-112 | a path is listed for an id if and only if a file of that path refers to it |
| `ImportIndex.CollectImporters` | tools/dead_module_detector.py:115-122 | the set holds exactly the other files listed under one of the ids |
| `ImportIndex.ImportersAre` | tools/dead_module_detector.py:115-122 | being listed under one of the ids is the same as being a file that refers to one of them |
| `ImportIndex.FindImporters` | tools/dead_module_detector.py:115-122 | the result is ordered, free of duplicates, and holds exactly the other files that refer to the module by one of its ids |
| `ImportIndex.SortedMembers` | tools/dead_module_detector.py:122 | sorting keeps exactly the members |
| `ImportIndex.SortedOrdered` | tools/dead_module_detector.py:122 | and lists them in the order of texts, each once |
| `ImportIndex.Dedupe` | tools/dead_module_detector.py:61-68 | the loop over `seen` and `result` keeps first occurrences in order |
| `ImportIndex.DedupedIs` | tools/dead_module_detector.py:61-68 | the same ids, each once |
| `ImportIndex.LeqIs` | tools/dead_module_detector.py:122 | the order of texts is decided where they first differ |
| `ImportIndex.VariantsAre` | tools/dead_module_detector.py:51-60 | the ids are the full path and the path within `src`, each also without a trailing `.__init__`, the full path first |
| `ImportIndex.MakeImportIds` | tools/dead_module_detector.py:51-68 | exactly these names, each once |
| `ImportIndex.LiveIff` | tools/dead_module_detector.py:138-149 | a module is live if and only if a file other than its own refers to one of these names |
| `ImportIndex.Classify` | tools/dead_module_detector.py:138-149 | the dead and the live list are those of a brute-force scan of all files, in module order |
| `ImportIndex.KeptAre` | tools/dead_module_detector.py:138-149 | a considered module is in exactly one of the two lists, the live one if and only if another file refers to it |
| `ImportIndex.MoreFilesKeepLive` | tools/dead_module_detector.py:138-149 | scanning more files never turns a live module dead |

## Left out

- HistoryWalk.FetchExact: stored open times must lie at least a bar apart, which calendar months under the fixed 30-day `1M` need not; no alignment of range or candles is assumed otherwise.
- HistoryClient.Client.FetchRange: the bar name of the exchange is computed once per range, not per page, with the same result; a page limit or retry count below zero is not modelled.
- HistoryClient.Client.NormalizeRows: rows are already parsed; an answer whose normalisation raises ends the page at once, as the `Fatal` failure of its request does, and is modelled as one.
- ForwardPager.Adapter.GetHistoryCandles: setting up the exchange handle comes before this model; an answer with a malformed row is a failure of its request.
- Batches.BatchProcessor.ProcessBatchesParallel: `Stuck` stands for a call that never returns.
- ReadThroughCache.Cache.Invalidate: that a scan reports every matching key is an assumption of `GroupInvalidated`; without it nothing else is claimed to be deleted. Pattern characters inside the key prefix are not modelled.
- Migrations.Runner.RunAll: a status write that takes effect although its reply is lost is not modelled; the repair of the table's trigger is part of a write that succeeds; the base migration's id is a parameter of the registry.
- JobLock.Cluster.JobLock: lock ids are fresh and timeouts positive by assumption; Redis commands are atomic and its clock is the model's clock; with zero attempts a failing connection, which raises, counts as a conflict. How the body itself ends does not matter to the lock.
- SignalPnl.CalcPnl: starts from rows that are already merged and sorted by time.
- DollarBars.BuildDollarBars: the constant columns naming the bar source and volume unit, and the warning about a contract value of 1, are left out.
- ImportIndex.BuildIndex: each file's set of referenced ids is given; regular expressions and relative imports are not part of this model.
- HTTP, CCXT, rate limiting, tracing and logging; SQL, sessions and detector queries; JSON and UUID encoding; metrics exporters.
- Floating-point rounding: all prices, volumes and delays are exact reals.
- Cancellation and interpreter exits (`BaseException`) in locks, loaders and batches.
- Sharpe ratios and the win rate, which need square roots and a normal distribution or are one-line counts.
- `DatabaseBatchProcessor`, report and health generation, positions, scoring, risk and signal records, repositories, identity scripts and command lines: short formulas, field checks or foreign calls.
