# A verified model of the Poly bridge server

The Poly bridge server follows many chains, charges users for relaying their transfers, and keeps statistics
about them. This project models four parts of it in Dafny and proves what they promise.

**The block scanner** (`Tiling`, `Workers`, `WorkerCalls`, `ScannerRuns`, `OneBlockScanner`, `ChainListener`). A pass cuts the
blocks between the persisted cursor and the confirmed tip into segments, starts a worker per segment, takes as
many verdicts from a channel as there are workers, and only then moves and writes the cursor. Workers may report
more than once, writes may fail before or after they take effect, workers of a given-up pass go on and may write
to its closed channel, and the process may die at any point. `Tiling` works in wrapping 64-bit arithmetic.

**Fees** (`FeeMath`, `FeeAlgebra`, `CheckFees`, `CheckFeeLaws`, `SwapFees`, `FeeStates`, `FeeEndpoint`, `BalanceCache`). What is
quoted, what is checked, how the check finds a transaction through hash maps, and where a cached balance came from.

**Statistics** (`BasicTotals`, `TokenTotals`, `TokenRecords`, `ChainCounters`, `ChainHistories` over `Ledger`, `Decimals` and
`FloatSums`). Accumulators that are moved along by checkpoints, compared with sums over the whole table.

**Node failover** (`Nodes`, `SweepRace`). The picker, demotion, the failover loops, and the background sweep that
raises nodes while a loop runs.

Each method is proved against a specification function or a property, and the theorems are lemmas about those.

## What the proofs found

Where the code does less than it seems to, the code is kept, a lemma gives an input, and another gives the exact condition.

- A tip below the number of confirmations wraps around, and the scanner plans work far above the chain. Input: `Tiling.ShortChainScansPastTip`; condition, for every pass that can complete: `Tiling.StaysConfirmedIff`.
- On such a tip the end of the last segment can wrap too. Its worker is skipped though its verdict is awaited, and the scan hangs for ever unless another worker fails. Input: `ScannerRuns.ShortChainHangs` (settings in `Tiling.ShortChainSkipsSegment`); condition: `Tiling.ExactTiling`, `ScannerRuns.CanHangIff`. Such passes are part of all runs below; they never move the cursor (`Workers.ShortBatchNeverSucceeds`).
- The error of the first cursor write is not looked at; if that write fails and the process restarts, blocks are skipped. Input: `ScannerRuns.SecondStartSkips`; condition: `ScannerRuns.NothingSkippedIff`.
- The repository's README.md:52 documents the check as strictly more than the minimum; the code accepts the minimum itself. Input: `FeeMath.MinimumIsAccepted`; condition: `FeeMath.DocumentedCheckDiffersIff`.
- A quote that does not name the swapped token uses the NFT ratio, the check does not; such a quote can be refused. Input: `FeeMath.NftQuoteRefused`; condition: `FeeMath.QuoteAcceptedIff`, and for the ratios alone `CheckFeeLaws.RatioSufficesIff`.
- A request by key or by reversed hash that gets as far as the comparison makes the check panic. Input: `CheckFeeLaws.RequestThatPanics`; condition: `CheckFeeLaws.AnsweredIffStoredHash`.
- A transaction whose key starts with eight zeros is not found by its hash. Input: `CheckFeeLaws.PaidByHash`; condition: `CheckFeeLaws.ZeroKeyIsNotFound`.
- A batch that asks for one key on two chains can answer a request differently from the request alone. Input: `CheckFeeLaws.BatchingMatters`; condition: `CheckFeeLaws.BatchAnswersAgreeIff`.
- The endpoint answers swap requests last; the reply follows the requests if and only if none of them comes before another (`FeeEndpoint.ReplyInOrderIff`).
- The early exit of the token totals compares the checkpoint, an id, with a time, and can leave a new transfer for later. Input: `BasicTotals.TimeHidesTransfer`; condition: `BasicTotals.ReachesNewestIff`. The totals stay those of the checkpoint all the same.
- The sum of a window is read through a 64-bit floating-point number and can lose units above 2^64. Input: `FloatSums.ReadLosesAUnit`; condition: `FloatSums.ReadIsExactIff`, for a run `BasicTotals.UpdateIsExactIff`; over any history the loss stays within one part in 2^64 (`BasicTotals.TotalsTelescope`).
- A failed aggregate query is logged and its record used all the same. Off a token's source chain the record has no amount, and following it kills the process with the stored statistics untouched, so nothing is lost (`TokenRecords.FailedQueryDies`, `TokenTotals.CounterIsExact`). On the source chain the run goes on and is saved, and the transfers out of its window are never counted. Input: `TokenTotals.FailedQueryLosesTransfer`; condition: `TokenTotals.CounterIsExactIff`.
- The chain counters take their window from the last record by id. When that is poly's, whose checkpoints are ids of another table, transactions are counted twice. Input: `ChainCounters.NewestPolyCountsTwice`; condition: `ChainCounters.RunConservesIff`.
- The pass that fills in addresses reads whole rows of the chain counters and saves them later, counters and checkpoints included. If a run adds a chain in between, the next run loses a window. Input: `ChainHistories.StaleSaveLosesTransaction`; condition: `ChainHistories.RunMisreadsNothingIff`. While no chain is added between reading and saving, nothing is lost (`ChainHistories.UsualHistoriesConserve`).
- Above a precision of 64 the stored hundredths are rounded up for some amounts. Input: `Decimals.RoundsUpBeyond64`; condition: `Decimals.TruncationIsExactIff`.

## Model

| member | source | states |
|---|---|---|
| Tiling.ExactTiling | crosschainlisten/crosschainlisten.go:269-339 | For every cursor, tip, confirmations, lengths and batch size on which a pass is planned, wrapped tips included: as many segments start as verdicts are awaited if and only if the last end does not wrap; then each is nonempty, consecutive ones meet, and together they run from the block after the cursor to the height stored next, which is above the cursor and not above the confirmed tip as computed; otherwise just the last one is skipped |
| Tiling.TilesExactly | crosschainlisten/crosschainlisten.go:285-321 | A height lies in some segment of a pass if and only if it is one of the blocks the pass is to cover |
| Tiling.TilesAreDisjoint | crosschainlisten/crosschainlisten.go:286-290 | No block is in two segments of a pass |
| Tiling.GapIsToTip | crosschainlisten/crosschainlisten.go:269-281 | For every tip, wrapped or not, both differences of the loop are the number of blocks from the cursor to the confirmed tip as computed |
| Tiling.GapIsExact | crosschainlisten/crosschainlisten.go:269-281 | With the tip at least the confirmations, none of the three unsigned differences wraps |
| Tiling.TipExactIff | crosschainlisten/crosschainlisten.go:260 | The subtraction of the confirmations is exact exactly when the tip is at least as large |
| Tiling.StaysConfirmedIff | crosschainlisten/crosschainlisten.go:260-339 | A planned pass that can complete stores a height within the true confirmed height if and only if the tip is at least the confirmations |
| Tiling.LowTipsTile | crosschainlisten/crosschainlisten.go:275-290 | With a confirmed tip below 2^63, or block by block, no segment is ever skipped |
| Tiling.ShortChainSkipsSegment | crosschainlisten/crosschainlisten.go:280-293 | Settings with which two verdicts are awaited and one worker starts |
| Tiling.ShortChainScansPastTip | crosschainlisten/crosschainlisten.go:260-281 | A short chain, on which the difference wraps and a pass is planned above its tip |
| Tiling.PlanIsBounded | crosschainlisten/crosschainlisten.go:275-282 | The clamp on the number of workers makes the last segment start inside the gap |
| Tiling.SegmentIsExact | crosschainlisten/crosschainlisten.go:286-293 | On every tip each segment but the last starts and ends at the true sums; the last one does too, or, if its end wraps, ends before it starts |
| Tiling.NextCursorIsExact | crosschainlisten/crosschainlisten.go:335-339 | If the last end does not wrap, the height stored is the end of the last segment, above the cursor and not above the tip |
| Tiling.PassIsMaximal | crosschainlisten/crosschainlisten.go:261-339 | A pass that completes stores the smaller of the tip and the cursor plus batch size times maximal length (by block, plus the batch size): it never does less than the settings allow |
| Tiling.StopsOnlyBelowMinimum | crosschainlisten/crosschainlisten.go:269-271 | A scan below the confirmed tip gives up planning only when ranges are scanned and the gap is under the minimum length |
| Workers.StepKeepsInv | crosschainlisten/crosschainlisten.go:294-320 | Whatever a worker's next call answers, its messages stay some refusals and then at most one success, and a success stands for stored blocks |
| Workers.CollectorSound | crosschainlisten/crosschainlisten.go:322-332 | If the awaited messages are all successes, no worker was skipped, and they come from different workers, each of which stored its whole segment and refused nothing |
| Workers.RefusalArrivesFirst | crosschainlisten/crosschainlisten.go:304-318 | In the order of the channel, a worker's refusal is ahead of its success |
| Workers.VerdictIsExact | crosschainlisten/crosschainlisten.go:402-430 | The collected verdict is success if and only if no worker failed any step |
| Workers.AllDoneSentEnough | crosschainlisten/crosschainlisten.go:385-426 | When all workers have returned, at least as many messages have been sent as are awaited |
| Workers.NoDeadlock | crosschainlisten/crosschainlisten.go:284-328 | If all planned workers started: until all verdicts are in, the collector can receive or some worker can move, although sends block on a full channel |
| Workers.ShortBatchNeverSucceeds | crosschainlisten/crosschainlisten.go:291-332 | With a worker skipped the verdicts come in only if some worker fails, and are then no success |
| Workers.ShortBatchHangs | crosschainlisten/crosschainlisten.go:291-328 | With a worker skipped and none failing, the pass comes to a standstill before its verdicts are in |
| Workers.OnlyShortBatchHangs | crosschainlisten/crosschainlisten.go:291-328 | A pass at a standstill has a worker skipped |
| Workers.StepsDecrease | crosschainlisten/crosschainlisten.go:294-320 | Every step of a worker brings it closer to its end |
| WorkerCalls.WorkerSends | crosschainlisten/crosschainlisten.go:385-418 | The messages of a worker by the answers to its calls: one refusal if its blocks cannot be read; else a refusal for each failed check, one check by range and two by block, and the outcome of storing, which is tried all the same |
| WorkerCalls.VerdictOfAnswers | crosschainlisten/crosschainlisten.go:322-332 | Whatever the schedule, the collected verdict is success if and only if all planned workers started and every one of their calls succeeds |
| ScannerRuns.NextKeepsInv | crosschainlisten/crosschainlisten.go:166-220 | Every event keeps the coverage invariant: steps of current and abandoned workers, verdicts, cursor writes of each outcome, sends on a closed channel, panics, crashes and restarts |
| ScannerRuns.BeginTiles | crosschainlisten/crosschainlisten.go:260-293 | A pass that begins with all its workers has segments that run exactly from its cursor to the height it will store |
| ScannerRuns.PassCovers | crosschainlisten/crosschainlisten.go:329-339 | When all verdicts are successes, every block up to the height about to be stored has been stored |
| ScannerRuns.FinishMoves | crosschainlisten/crosschainlisten.go:334-343 | A fully successful pass moves the scanner and the row to its next height, as far as the write goes through |
| ScannerRuns.StartResumes | crosschainlisten/crosschainlisten.go:199-214 | A start resumes at the height in the row, or at the tip when the row holds none |
| ScannerRuns.CursorCoverage | crosschainlisten/crosschainlisten.go:199-437 | In every run, at every point, every block above the height of the current origin and at or below the persisted cursor was stored by a worker whose write succeeded; from a row that holds a height, the origin is that height |
| ScannerRuns.NothingSkippedIff | crosschainlisten/crosschainlisten.go:199-437 | In all runs from a row, every block above the height of the first start and at or below the persisted height is stored, if and only if the row held a height or the first write reached it |
| ScannerRuns.SecondStartSkips | crosschainlisten/crosschainlisten.go:207-214 | For every first tip, a run in which the first write is lost and a restart from a newer tip leaves a block unread |
| ScannerRuns.CanHangIff | crosschainlisten/crosschainlisten.go:280-293 | A pass begins with a worker skipped exactly when its last end wraps |
| ScannerRuns.HangingIsForEver | crosschainlisten/crosschainlisten.go:322-328 | No event of the scanner or of its pass gets it out of a standstill |
| ScannerRuns.ShortChainHangs | crosschainlisten/crosschainlisten.go:260-328 | A run from the start of the process to a standstill |
| OneBlockScanner.SimpleScannerCovers | crosschainlisten/crosschainlisten.go:374-437 | The reference scanner, which stores one block at a time and moves its cursor by one over a stored block, has stored everything its cursor has passed |
| OneBlockScanner.EventIsSimple | crosschainlisten/crosschainlisten.go:259-437 | Each event of the real scanner is a sequence of actions of the reference scanner |
| OneBlockScanner.RunIsSimple | crosschainlisten/crosschainlisten.go:166-437 | Every run of the batch loop and of the per-block loop, with restarts, is a run of the reference scanner; it chooses an origin only while the row holds no height |
| OneBlockScanner.RunFromFirstStart | crosschainlisten/crosschainlisten.go:199-437 | From a first start whose height is in the row, the whole run is one of the reference scanner that starts there and only stores blocks and moves its cursor |
| ChainListener.Listener.SpawnWorkers | crosschainlisten/crosschainlisten.go:285-321 | The loop starts exactly the segments of the plan |
| ChainListener.Listener.Collect | crosschainlisten/crosschainlisten.go:322-328 | For every schedule and all answers to the workers' calls the collector ends or comes to a standstill, the latter only with a worker skipped; it reports success if and only if all planned workers started and all their calls succeed, and then all segments are stored |
| ChainListener.Listener.Pass | crosschainlisten/crosschainlisten.go:260-343 | One pass on any tip: where the last end does not wrap it advances if and only if every call of every planned worker succeeds; it then moves the cursor over stored blocks only and rolls it back when the write fails; in all other cases the cursor stays |
| ChainListener.Listener.Scan | crosschainlisten/crosschainlisten.go:374-437 | Whatever the tip, once writes succeed the scan ends and never passes the confirmed tip as computed; below 2^63 it ends caught up with the tip, or with less than a range left, or failed, and failed only if some call of some pass did |
| ChainListener.Listener.Restart | crosschainlisten/crosschainlisten.go:199-214 | A restart goes on from the persisted height, or from the tip if there is none |
| ChainListener.Listener.constructor | crosschainlisten/crosschainlisten.go:199-214 | A first start scans from the height in the row, or from the tip when that is zero |
| Powers.Int64FromFigure | basedef/utils.go:163-169 | The loop yields the power of ten wrapped into a signed 64-bit value |
| Powers.FigureIsExactIff | basedef/utils.go:163-169 | It is the power of ten itself exactly up to 18 |
| FeeMath.MakeCoin | http/fee_controller.go:561-567 | The unit used by quote and check is the true power of ten for up to 18 decimals, and the wrapped one, where it is positive, beyond |
| FeeMath.RateProxyFee | http/fee_controller.go:80-98 | The branches over a dying mark, its ratio and the rank multiply the proxy fee by the risk rate |
| FeeMath.RateByCase | http/fee_controller.go:80-98 | The rate is a readable mark's ratio, one for an unreadable mark, the configured percentage above the threshold, and one otherwise |
| FeeMath.ApplyNftRatio | http/fee_controller.go:570-581 | The loop scales by the first configuration of the chain, if its ratio is positive |
| FeeMath.NftPercentIsFirst | http/fee_controller.go:116-124 | The ratio of a chain is that of its first configuration if positive, else 100 percent |
| FeeMath.NftPercentDefault | http/fee_controller.go:571-581 | A chain without a configuration has 100 percent |
| FeeMath.GetFee | http/fee_controller.go:79-153 | The quote, computed step by step, is one closed expression in fee, rate, prices, precisions, ratio and the extra fee of Optimism |
| FeeMath.QuoteIsWorthTheFee | http/fee_controller.go:98-125 | At the token's price the quote is worth exactly the proxy fee, with rate and ratio, at the price of the chain's coin, plus the extra fee |
| FeeMath.ComparePayment | http/fee_controller.go:561-592 | The verdict, computed through quotients, is that of comparing two integer products; the reported numbers are the quotients |
| FeeMath.NumbersInDollars | http/fee_controller.go:561-567 | The two numbers compared are the payment and the minimum in dollars |
| FeeMath.DecisionIsIntegral | http/fee_controller.go:561-587 | The quotients compare exactly as paid\*tokenPrice\*10^8\*10^chainPrecision\*100 does with minFee\*chainPrice\*10^tokenPrecision\*ratio |
| FeeMath.DecisionIsMonotone | http/fee_controller.go:583-587 | Paying more never turns paid into unpaid |
| FeeMath.DocumentedCheckDiffersIff | http/fee_controller.go:583-587 | The code and the documented strict comparison differ exactly on a payment of the minimum |
| FeeMath.MinimumIsAccepted | http/fee_controller.go:583-587 | A payment of exactly the minimum, accepted |
| FeeMath.QuoteAcceptedIff | http/fee_controller.go:79-125 | The quoted amount passes the check if and only if proxy fee times rate times ratio, with the extra fee, is at least the minimum fee times the ratio of the check |
| FeeMath.QuoteImpliesPaid | http/fee_controller.go:79-125 | With unchanged prices, a coin whose fee neither its mark nor the risk configuration lowers, a proxy fee of at least the minimum and a ratio of at least the check's, every whole payment at or above the quote is paid |
| FeeMath.NftQuoteRefused | http/fee_controller.go:103-124 | A quote asked without naming the token, whose payment is refused |
| CheckFees.IndexTransactions | http/fee_controller.go:484-505 | The three maps filled from the source transactions hold what plain search finds, the last row winning; a key under eight characters panics |
| CheckFees.DecideThroughMaps | http/fee_controller.go:524-592 | The decision through the maps is the decision by plain search over transactions, wrapper records and fees |
| CheckFees.CheckAll | http/fee_controller.go:473-593 | One result per request, in request order, each decided as plain search decides it; it panics exactly when a key is short or a reference is missing |
| FeeStates.StatesOfCheck | http/fee_controller.go:524-592 | In terms of stored rows: -2 exactly without a bridge transaction that goes by the text; 0 exactly with one, a fee row and no transaction named; 1 only with a named transaction whose wrapper record paid at least what is asked; -1 only with less paid or a row missing |
| FeeStates.UpperIs | http/fee_controller.go:490 | The upper-cased contract is the contract with its lower-case letters raised, character by character |
| CheckFeeLaws.StoredHashIsDecided | http/fee_controller.go:524-592 | A request by the stored hash of a transaction nothing else goes by is decided from that transaction, its wrapper record and the fees alone |
| CheckFeeLaws.RatioSufficesIff | http/fee_controller.go:103-124 | When the ratio of the quote is at least that of the check, by how the swapped token was found |
| CheckFeeLaws.QuotedPaymentIsAccepted | http/fee_controller.go:473-593 | Such a transaction, having paid what was quoted, is answered with state 1, whatever else is in the batch and in the tables |
| CheckFeeLaws.ZeroKeyIsNotFound | http/fee_controller.go:495-504 | A transaction of the bridge asked for by its hash is answered as unknown if and only if its key starts with zeros |
| CheckFeeLaws.PaidByHash | http/fee_controller.go:495-504 | One paid transaction for every key: paid, or unknown when the key starts with zeros |
| CheckFeeLaws.AnsweredIffStoredHash | http/fee_controller.go:569-570 | A request that reaches the comparison is answered if and only if its text is a stored hash; otherwise the check panics |
| CheckFeeLaws.ReversedHashPanics | http/fee_controller.go:569-570 | A paid transaction, asked for by its reversed hash, panics the check, for every hash that differs from its reversal |
| CheckFeeLaws.RequestThatPanics | http/fee_controller.go:569-570 | One such request in full |
| CheckFeeLaws.BatchIsLastChain | http/fee_controller.go:474-507 | In every batch a request is decided as if sent alone with the chain given last for its text, if alone it fetches all rows that go by its text |
| CheckFeeLaws.BatchLookupAgreesIff | http/fee_controller.go:474-507 | A batch finds another transaction for a request exactly when the row found is looked up by a zero key and the text is given with another chain later |
| CheckFeeLaws.BatchAnswersAgreeIff | http/fee_controller.go:473-593 | With unique hashes: for all wrapper records, fees and settings the batch answers a request as it is answered alone, if and only if the chain given last for its text is irrelevant: it is the request's own, or the row found is not looked up by a zero key |
| CheckFeeLaws.CanonicalIsComplete | http/fee_controller.go:476-482 | With hashes in lower-case hex a request alone fetches all rows that go by its text, as these laws ask |
| CheckFeeLaws.BatchingIsHarmless | http/fee_controller.go:474-507 | Otherwise batching changes no answer |
| CheckFeeLaws.BatchingMatters | http/fee_controller.go:474-507 | A batch that changes an answer |
| HexText.ReverseTwiceIff | basedef/utils.go:140-153 | Reversing a hash twice gives it back exactly when it is well-formed lower-case hex |
| HexText.ReverseAt | basedef/utils.go:140-153 | Byte k of the reversal is byte k from the end |
| SwapFees.IndexSwaps | http/fee_controller.go:623-637 | The map of the swap check holds what plain search finds |
| SwapFees.DecideSwapThroughMaps | http/fee_controller.go:667-718 | The swap decision through four maps is the one by plain search, along the join to the transaction that paid |
| SwapFees.CheckSwapFee | http/fee_controller.go:613-720 | One result per request in order, each as plain search decides; none when the join cannot be read; a panic exactly when a key is short or a reference is missing |
| FeeStates.PayerIs | http/fee_controller.go:595-611 | The payer of a swap is the source of a join row that leads from the transaction the text names, and there is one exactly when there is such a row |
| FeeStates.StatesOfSwap | http/fee_controller.go:667-718 | In terms of stored rows: 1 only with a join row from a named transaction to a wrapper record that paid at least what is asked; 0, where the text names one hash, exactly with a fee row and no such join row; -1 only with less paid or a row missing |
| FeeStates.CompleteSwapIsCompared | http/fee_controller.go:667-718 | A swap whose rows are all there, each the only one of its key, is paid exactly when its payer's record paid at least what its destination asks |
| SwapFees.SwapBatchingIsHarmless | http/fee_controller.go:613-637 | Under the same condition batching changes no answer of the swap check |
| SwapFees.ChecksAgreeIff | http/fee_controller.go:561-718 | From the same wrapper record the two checks report the same amount, and the same minimum exactly when no NFT ratio intervenes; then the same state |
| FeeEndpoint.Split | http/fee_controller.go:448-456 | Requests are dealt to the two checks in order, none lost |
| FeeEndpoint.CheckFeeEndpoint | http/fee_controller.go:440-471 | Every answer names its request and is the decision of the check it belongs to; the plain ones come first |
| FeeEndpoint.ReplyInOrderIff | http/fee_controller.go:448-470 | The reply is in the order of the requests if and only if no swap request comes before another one |
| FeeEndpoint.PickSizes | http/fee_controller.go:448-470 | The reply answers the same requests as were sent, as a multiset |
| BalanceCache.BalanceKeysAreInjective | cacheRedis/redisCache.go:168-171 | Two entries share a cache key only if tier, chains and token agree |
| BalanceCache.ProxyKeysAreInjective | http/fee_controller.go:240 | Two lock proxies share a table key only if chains and token agree |
| DecimalText.ParsePrint | cacheRedis/redisCache.go:126-146 | Every balance written as text is read back as the same number |
| BalanceCache.ServeKeepsInv | http/fee_controller.go:224-274 | A request keeps the provenance of both tiers and of the proxy table, whichever calls fail, also when it copies a long-lived value back to both tiers |
| BalanceCache.ReportedBalancesWereRead | http/fee_controller.go:224-274 | After any requests, expiries and restarts, a reported balance is one a chain read returned for that very key, or the constant of the PLT chain |
| BalanceCache.StoredBalanceIsServed | cacheRedis/redisCache.go:126-146 | A balance just written is what the next request for the key reports, and that request changes nothing |
| BalanceCache.WhatIsReported | http/fee_controller.go:224-264 | A request reports the short-lived entry; without it the chain's answer; if that fails the long-lived entry; nothing only if all three are missing |
| BalanceCache.BothTiersAreWritten | http/fee_controller.go:265-272 | A balance that did not come from the short-lived entry is put into both tiers |
| BalanceCache.ProxyIsRemembered | http/fee_controller.go:240-249 | A lock proxy named by the chain is remembered for the next request |
| BalanceCache.BalanceReader.TokenBalance | http/fee_controller.go:224-274 | The request as the program serves it reaches the specified state and report |
| FloatSums.ReadIsExactIff | crosschaindao/bridgedao/bridge_dao.go:352-366 | A sum read through a 64-bit floating-point number is exact if and only if the bits that do not fit are zero |
| FloatSums.ReadIsClose | crosschaindao/bridgedao/bridge_dao.go:352-366 | The error is at most one part in 2^64 |
| FloatSums.RoundsToNearestEven | crosschaindao/bridgedao/bridge_dao.go:352-366 | No representable number is nearer, and of two equally near the even one is taken |
| FloatSums.ReadLosesAUnit | crosschaindao/bridgedao/bridge_dao.go:352-366 | A sum that is not read back exactly |
| BasicTotals.UpdateKeeps | crosschainstats/crosschainstats.go:129-164 | A run keeps the count exact and the amount within the error of one read, whatever window it covers and whether or not it leaves early |
| BasicTotals.UpdateIsExactIff | crosschainstats/crosschainstats.go:145-156 | A run keeps an exact amount exact if and only if the sum of its window is read exactly |
| BasicTotals.NextKeepsInv | crosschaindao/bridgedao/bridge_dao.go:368-379 | Overlapping runs that write only over the checkpoint they read, and rows put back whole by the writer of prices, keep the totals |
| BasicTotals.CheckpointNeverFalls | crosschaindao/bridgedao/bridge_dao.go:368-379 | Without rows put back the checkpoint never falls, however runs overlap |
| BasicTotals.TotalsWithin | crosschainstats/crosschainstats.go:129-164 | Over every history the errors of the sums do not pile up: the amount stays within the error of one read |
| BasicTotals.TotalsTelescope | crosschainstats/crosschainstats.go:129-164 | Over every history the stored count is that of all transfers up to the checkpoint, each once; the amount is exact below 2^64, and within one part in 2^64 above |
| BasicTotals.ReachesNewestIff | crosschainstats/crosschainstats.go:138-144 | A run brings the checkpoint to the newest transfer if and only if the checkpoint differs, as a number, from that transfer's time, or is there already |
| BasicTotals.TimeHidesTransfer | crosschainstats/crosschainstats.go:138-144 | A run that leaves a new transfer out |
| BasicTotals.ComputeTokenBasicStats | crosschainstats/crosschainstats.go:129-164 | The run as the program makes it, on the token in memory and on the row, with its conditional write |
| Decimals.HundredthsIsTruncation | utils/decimal/decimal.go:497-572 | Up to a precision of 64 the stored hundredths are the exact quotient truncated once |
| Decimals.TruncationIsExactIff | utils/decimal/decimal.go:497-572 | They are so for every amount exactly when the precision is at most 64 |
| Decimals.RoundsUpBeyond64 | utils/decimal/decimal.go:497-572 | For every larger precision, an amount whose hundredths are not the truncation |
| TokenTotals.CounterIsExact | crosschainstats/crosschainstats.go:268-302 | Off the source chain the stored counter is the number of transfers up to the stored checkpoint after every history, whichever queries and saves fail |
| TokenTotals.RunReachesNewest | crosschainstats/crosschainstats.go:268-302 | A run dies exactly on a failed query off the source chain, and otherwise brings the checkpoint to the newest id |
| TokenTotals.CountsWholeTable | crosschainstats/crosschainstats.go:268-302 | Right after a saved run off the source chain the counter is that of all the token's transfers in the table |
| TokenTotals.CounterIsExactIff | crosschainstats/crosschainstats.go:286-302 | On the source chain the stored counter of transfers out is exact if and only if no failed query of a saved run skipped one; otherwise it is short by those skipped |
| TokenTotals.FailedQueryLosesTransfer | crosschainstats/crosschainstats.go:286-302 | A run on the source chain that loses a transfer |
| TokenTotals.LostIffSkipped | crosschainstats/crosschainstats.go:286-302 | On the source chain a history loses nothing exactly when each saved run whose query failed found its window empty |
| TokenTotals.TruncationDrift | crosschainstats/crosschainstats.go:268-302 | After k saved runs, whichever others failed, the stored amount is at most the exact hundredths of the whole sum, and short of it by at most k-1 |
| TokenTotals.DriftIsReached | crosschainstats/crosschainstats.go:269-278 | The bound is reached: two small transfers in two runs lose a hundredth |
| TokenRecords.Reconcile | crosschainstats/crosschainstats.go:209-245 | For every iteration order: existing records untouched and in front, one record per key of their union with the fungible tokens, new ones at zero |
| TokenRecords.TokenStatistic.Update | crosschainstats/crosschainstats.go:252-303 | One record's turn up to the save, on and off the source chain: it dies exactly on a record without an amount off the source chain or on a bitcoin price of zero, else both sides stand |
| TokenRecords.PassIsRun | crosschainstats/crosschainstats.go:252-306 | What a turn does to the stored row is a run of the histories of TokenTotals, in both directions off the source chain and for transfers out on it, whatever fails |
| TokenRecords.FailedQueryDies | crosschaindao/bridgedao/bridge_dao.go:393-411 | Off the source chain a failed query kills the process and leaves the stored row alone |
| TokenRecords.DiesIff | crosschainstats/crosschainstats.go:252-302 | The pass dies at a record exactly for a known token, on a bitcoin price of zero or a failed query off the source chain |
| TokenRecords.TurnIsStored | crosschainstats/crosschainstats.go:252-306 | A turn changes the stored row exactly when the token is known, the pass does not die there and the save takes effect; it then stands at the newest ids; and the pass goes on unless it dies or the save is reported failed |
| TokenRecords.SourceHoldsBalance | crosschainstats/crosschainstats.go:260-267 | On its source chain a record holds the balance in hundredths, truncated once, and no outgoing amount |
| TokenRecords.ComputeTokenStatistics | crosschainstats/crosschainstats.go:252-308 | The stored rows after the pass: each record has its turn once, up to the first at which the process dies or the save fails, and every other row is as before |
| Ledger.TotalSplits | crosschaindao/bridgedao/bridge_dao.go:393-411 | Adjoining windows of ids add up |
| Ledger.WindowIsStable | crosschaindao/bridgedao/bridge_dao.go:393-411 | A window once read keeps its sum when rows are added |
| ChainCounters.AddedIsExactIff | crosschaindao/bridgedao/bridge_dao.go:474-483 | Reading a window from a wrong checkpoint is right exactly when the chain has no transaction between the two; a failed query exactly when it has none at all |
| ChainCounters.RunConservesIff | crosschainstats/crosschainstats.go:376-408 | A run keeps a chain's counters right if and only if the chain has no transaction between the newest record's checkpoint and its own, or none since its own where the query failed |
| ChainHistories.RunKeepsInv | crosschainstats/crosschainstats.go:311-408 | After every run, also one that fails or finds poly's record newest, each counter is its start plus its transactions up to its own checkpoint plus what runs misread; new chains start with the window of the run |
| ChainHistories.RunShares | crosschainstats/crosschainstats.go:347-393 | If either table has ids above the newest record's checkpoints, a run brings all chains but poly to the newest ids of both tables, wherever they stood |
| ChainHistories.IdleRun | crosschainstats/crosschainstats.go:347 | Otherwise it changes nothing |
| ChainHistories.RunCountsPoly | crosschainstats/crosschainstats.go:395-408 | Such a run adds to poly, both ways, the number of its rows above its checkpoint and brings both checkpoints to its newest row; a failed poly query leaves the record as it is |
| ChainHistories.SaveKeepsInv | crosschainstats/crosschainstats.go:415-449 | Saving rows whole as they were read puts counters and checkpoints back together |
| ChainHistories.RunIsRunAll | crosschainstats/crosschainstats.go:311-408 | The rows of a history are those of the run the program makes |
| ChainHistories.CountersAreAccounted | crosschainstats/crosschainstats.go:311-449 | The same over every history of new transactions, runs and saves of whole rows |
| ChainHistories.RunMisreadsNothingIff | crosschainstats/crosschainstats.go:311-408 | A run from conserved counters leaves all of them conserved if and only if it meets the condition of RunConservesIff for every chain |
| ChainHistories.CountersAreConserved | crosschainstats/crosschainstats.go:311-449 | Where each run does, no transaction is left out and none counted twice, over every history, saves of whole rows included |
| ChainHistories.UsualHistoriesConserve | crosschainstats/crosschainstats.go:311-449 | Where runs succeed and find a record other than poly's newest, and no chain is added between the reading and the saving of whole rows, all chains keep sharing their checkpoints and nothing is lost or counted twice |
| ChainHistories.StaleSaveLosesTransaction | crosschainstats/crosschainstats.go:415-449 | A save of whole rows after which a transaction is never counted |
| ChainHistories.PolyStaysConserved | crosschainstats/crosschainstats.go:395-408 | Poly's counter is its start plus the rows of its own table since, each once, over every history, also with failing queries, when its record is the newest and with saves of whole rows |
| ChainHistories.PolyIsConservedFrom | crosschainstats/crosschainstats.go:395-408 | So it is from the first run whose poly query succeeds, whatever the record held before |
| ChainHistories.PolyIsCurrentAfter | crosschainstats/crosschainstats.go:395-408 | After every history that ends with a run whose poly query succeeds, poly's counter is its start plus all rows of its table since |
| ChainCounters.NewestPolyCountsTwice | crosschaindao/bridgedao/bridge_dao.go:448-452 | With poly's record the newest, a transaction is counted twice |
| ChainCounters.ChainStatistics.CountOf | crosschainstats/crosschainstats.go:376-388 | The first group of a chain in a grouped answer is that chain's count, and no group means none |
| ChainCounters.ChainStatistics.ComputeChainStatistics | crosschainstats/crosschainstats.go:311-408 | The run over all records, record by record |
| Nodes.EthereumSdkPro.Selection | chainsdk/ethereum_sdk_pro.go:94-124 | After a sweep, in any order, a node is live exactly when it answered a height above 1 and below the maximum, one block below that height; if none did, none is live |
| Nodes.EthereumSdkPro.GetLatest | chainsdk/ethereum_sdk_pro.go:125-139 | For every iteration order: nil exactly when all heights are zero, otherwise a node of maximal positive height |
| Nodes.EthereumSdkPro.Reset | chainsdk/ethereum_sdk_pro.go:586-589 | Only the node given is demoted, and the next pick differs from it |
| Nodes.EthereumSdkPro.NonceAt | chainsdk/ethereum_sdk_pro.go:267-283 | The loop ends; a value is the answer of the last node called, all before having failed; the error comes if and only if every live node fails, and then each was called |
| Nodes.EthereumSdkPro.NftBalance | chainsdk/ethereum_sdk_pro.go:450-464 | The same for the loops that demote through reset and pass on the last node's error |
| Nodes.FailoverOrder | chainsdk/ethereum_sdk_pro.go:267-283 | No node is called twice, only live nodes are called, and heights never increase |
| Nodes.FailoverLength | chainsdk/ethereum_sdk_pro.go:267-283 | At most one call per live node |
| SweepRace.NextKeepsBudget | chainsdk/ethereum_sdk_pro.go:94-139 | Each call, demotion and sweep write keeps calls plus live nodes within the live nodes at entry plus those raised |
| SweepRace.RaisedIff | chainsdk/ethereum_sdk_pro.go:94-124 | A raise is a sweep write that finds a node at zero with a usable answer, and nothing else |
| SweepRace.CallsAreBounded | chainsdk/ethereum_sdk_pro.go:94-139 | However sweeps and other callers interleave, a loop makes at most one call per node live at entry plus one per node raised from zero |

## Assumptions

- `big.Float` arithmetic in quote and check is exact arithmetic; only the reading of the token sums models its rounding.
- Ids of a table only grow and rows are only added. Queries answer as their text says, on exact strings: collation and case folding of the database are not modelled. The database adds up the text column of amounts exactly; `BasicTotals.TotalsWithin` is proved for a sum with any relative error.
- The tokens of a token basic, and the source chain of a token, do not change between runs.
- The query for the swapped token passes three arguments for two placeholders (http/fee_controller.go:108). The third is taken to be ignored; were the query refused for it, no token would be found, and the quote would be the one proved for a token not named.
- Amounts of transfers are not negative, where the table says so (`BasicTotals`, `TruncationDrift`).
- A run over the chain counters, from its first read to its save, is one step among the other events, and the pass over the addresses reads and saves in two.
- RPC answers, Redis answers and failures, the outcome of each database write, and scheduling are arbitrary.
- The chain ids that matter are those of the main network.

## Left out

- The Backup branch, the height override and the Aptos branch of the scanner: they use another cursor source, or none.
- Other writers of the chain row, and events written in part by a failed write.
- ChainListener.Listener.Pass: a channel of 2^63 places or more cannot be made in Go; the pass panics, and smaller ones are taken to fit into memory.
- CheckFees.CheckAll: which rows a database with another collation would fetch.
- FeeMath.MakeCoin: quotients by a power of ten that wraps to zero or below, as from 19 decimals on it may; see Powers.FigureIsExactIff.
- FeeMath.GetFee: the float values reported beside the quote, and the error replies when a token or a fee is missing.
- BalanceCache.BalanceReader.TokenBalance: concurrent requests writing the table of lock proxies, which Go does not allow on a plain map. The key of a balance does not hold the source token, as in the source, so two source tokens with the same destination token share an entry.
- TokenRecords.TokenStatistic.Update: the amounts in dollars and bitcoin, which are recomputed from scratch in each run, and the clamp of the database at 37 digits.
- CheckFeeLaws.BatchIsLastChain: a text that is the reversal of a hash not written in lower-case hex, whose row the request alone does not fetch.
- ChainCounters.ChainStatistics.ComputeChainStatistics: the runs that end with an error before any record is touched, among them every run while no record exists.
- Asset statistics (crosschainstats.go:451-521): accumulators with a checkpoint in the shape of TokenTotals, whose checkpoint moves on after a failed query too.
- Distinct addresses, which are counted from scratch, time lines, alarms and metrics.
- Waiting for confirmations and the search for a bound lock proxy, and the other chains' failover loops, which repeat the shape of Ethereum's.
- BasicTotals.ComputeTokenBasicStats: the ends with an error, which change neither the row nor the totals.
- Counters and checkpoints are integers without a bound; the width of their columns and the wrap of a count are not modelled.
- HTTP requests, replies and pages, configuration, deployment tools and migrations.
