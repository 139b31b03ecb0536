# Verified model of the D8X trader backend's data pipeline

The trader backend has two services with state that must stay right while everything around them fails.

The **history service** copies contract events into a database. A backfill reads a watermark per table, searches a
start block by timestamp, scans to the head in chunks whose size follows the RPC's errors, drops events older than
their watermark and upserts the rest. Backfills are repeated, overlap with each other and with a live listener, and die
with the process; a table of name intervals (`perpetual_long_id`) is maintained by inserts that interleave call by call.

The **api service** fans contract events out to websocket clients over two indexes that mirror each other, filters
duplicates with a small ring per event handler, and rotates a queue of RPC URLs.

This project models both in Dafny and proves what they promise, over all inputs, all RPC answers and all interleavings.

| module | subject |
|---|---|
| `Prelude` | options, integer helpers |
| `Chain` | block times and logs, `queryFilter` |
| `BlockSearch` | `calculateBlockFromTime` |
| `LogScan` | `genericFilterer` and `saveEvents`, as recursive functions and as the loops that compute them |
| `Backfill` | watermark map, start date, filter, one whole run |
| `Tables`, `Records` | the three upserts, what each event writes, the watermark queries |
| `EventWrites` | which handler writes what, and which query reads it back |
| `CrashResume` | overlapping runs, unfinished writes and crashes against the watermarks |
| `Gaps` | gap detection and repair |
| `PerpetualNames` | the interval table, interleaved inserts, alignment, the trades view |
| `DeploymentSearch` | `getCloseDeploymentBlock` |
| `SubscriptionHub` | subscriptions, delivery, order-book handlers |
| `EventControl` | the duplicate filter |
| `RpcQueue` | the RPC manager, sequential and interleaved |
| `FixedPoint`, `Percentages` | number conversions and the adjustment to 100 percent |

## How to read it

*RPC answers.* A scan and a code search take their RPC answers from one stream, entry by entry. A stream that runs out
is a process that stops at that call, so a theorem over all streams covers every error pattern and every cut.

*Loops and specifications.* Each loop of the source is a method proved against a function or relation (`Scan`, `Save`,
`Fetch`, `RemoveAll`, `Inserts`, `Aligned`, ...); what the source promises is proved about those.

*Numbers.* A function that a loop computes is also pinned by laws that do not mention it, in the source's own numbers
(`LogScan.NextRange`, `Records.CommonColumns`, `RpcQueue.FirstTurn`, `EventWrites.GroupReadsBack`, ...).

*State machines.* `CrashResume`, `PerpetualNames` and `RpcQueue` have a step relation with one step per database call,
write or awaited check, and theorems over every history of steps. The steps use the same functions as the methods.

## Where the code and its description disagree

The code is modelled as it is. In each case the project has a concrete input or a family of inputs on which the promise
fails, and the condition under which it holds.

- The one-hour overlap makes good only writes that are at most an hour older than the newest backfilled row of their
  table (`CrashResume.RedeliveredIffRecent`, both directions). A crash loses every older one
  (`CrashResume.CrashLosesOldWrites`), and no later skipping run brings it back (`CrashResume.LostForGood`).
- Even without a crash a log is lost if a run, such as gap repair or the run after a restart issues, starts above it
  while its table has no backfilled row: that run's rows give a watermark that hides the log from every skipping run.
  `CrashResume.NoLogIsLost` therefore assumes, table by table, that a run which starts while the table has no watermark
  has no missing log of that table below its start block. `CrashResume.UnsafeStartLosesALog` shows, from any state in
  which this fails for a log that has its key to itself, how it goes missing, so the assumption is exact
  (`CrashResume.SafeStartIff`). Tables do not depend on each other here.
- A trade is said to be inserted if none of its transaction is there; rows are keyed by order digest, so an order filled
  in several parts has one row (`Records.OneOrderOneFill`).
- A throw out of `saveEvents` loses the rest of its chunk, because the block number has moved on already: a finished scan
  is complete exactly if there was none (`LogScan.ScanCompleteIff`).
- The head block itself may stay unread. Without a 413 it does exactly if the scan's way to it is a multiple of 9999
  blocks (`LogScan.EndReadIff`, `LogScan.EndLogSentIff`; `LogScan.HeadCanBeMissed` is an instance).
- A second deposit, or withdrawal, of a trader and perpetual in one transaction is dropped
  (`Records.SecondFlowIsDropped`; in general `Records.NetFlowIsDepositsLessWithdrawals`).
- `perpetual_long_id` is keyed by transaction hash alone: two events of one transaction compete for a row, and the
  table depends on more than the events exactly if there are two such, or two that begin together before a third
  (`PerpetualNames.OneOutcomeIff`). Two that begin together and last leave later trades without a name
  (`PerpetualNames.TradeJoinsOneNameIff`).
- Order-book handlers are exact only if no two symbols share a perpetual id (`SubscriptionHub.SharedIdLeavesHandlers`),
  and a subscription during which attaching handlers throws leaves the indexes out of step until the client leaves
  (`SubscriptionHub.FailedAttachStrands`), and the perpetual without handlers for whoever comes next
  (`SubscriptionHub.FailedAttachStaysUnattached`), until it has lost all its subscribers
  (`SubscriptionHub.EventListener.Unsubscribe`).
- `adjustNDigitPercentagesTo100` promises that zeros stay zero and that results are positive; neither holds always
  (`Percentages.ZerosStayIff`, `Percentages.EntriesCanTurnNegative`, `Percentages.NonNegativeIff`).
- `decNToFloat` throws for zero decimals (`FixedPoint.PrintedReadsBackIff`).

## Model

| member | source | states |
|---|---|---|
| Chain.LogsInExact | packages/history/src/contracts/historicalDataFilterer.ts:346-350 | a range query returns exactly the chain's logs in blocks first to last, both included |
| BlockSearch.CalculateBlockFromTime | packages/utils/src/utils.ts:351-399 | left end is 0 or strictly older than the date, right end is the head or not older; on exit the bracket spans under six hours or at most ceil(head/128) blocks; at most seven probes |
| BlockSearch.MidpointRoundsUp | packages/utils/src/utils.ts:365-398 | the midpoint is rounded half up |
| BlockSearch.NothingMissedBelow | packages/utils/src/utils.ts:393-398 | with ordered block times, no block at or after the date lies at or below a non-zero start block |
| LogScan.SaveSendsPrefix | packages/history/src/contracts/historicalDataFilterer.ts:404-471 | `saveEvents` calls back for a prefix of its logs, each with its own block's time, and for all of them iff it does not stop early |
| LogScan.Shrunk | packages/history/src/contracts/historicalDataFilterer.ts:364-369 | after a 413 the chunk is the integer nearest to three quarters, halves up, and 100 exactly where that is at most 100 |
| LogScan.Grown | packages/history/src/contracts/historicalDataFilterer.ts:354-356 | after a success a chunk below three quarters of 9999 becomes the integer nearest to five quarters, and 9999 exactly where that is at least 9999; a larger one stays |
| LogScan.ScanKeeps | packages/history/src/contracts/historicalDataFilterer.ts:330-395 | the invariant of the scan from any loop state, kept for every answer of the RPC and in every way of ending |
| LogScan.ScanTiles | packages/history/src/contracts/historicalDataFilterer.ts:315-395 | ranges read are disjoint, ascending, contiguous from the first block and within the end block, at most ceil((end-from)/100) of them; chunk size in 100..9999, back-off in 2..32 |
| LogScan.ScanCovers | packages/history/src/contracts/historicalDataFilterer.ts:330-332 | a finished scan has read every block below the end, and the end block iff the last step went past it |
| LogScan.EndReadIff | packages/history/src/contracts/historicalDataFilterer.ts:330-357 | without a 413, whatever other errors come, a finished scan has read the end block iff the number of blocks up to it is no multiple of 9999 |
| LogScan.EndLogSentIff | packages/history/src/contracts/historicalDataFilterer.ts:330-357 | so a log of the head block is called back, without a 413 and a throw out of `saveEvents`, exactly then |
| LogScan.HeadCanBeMissed | packages/history/src/contracts/historicalDataFilterer.ts:330-332 | a scan over 9999 blocks that finishes without reading the head block's log |
| LogScan.ScanSendsAtMostOnce | packages/history/src/contracts/historicalDataFilterer.ts:352-357 | for every pattern of errors, also throwing or cut scans: call backs are chain logs in chain order, none twice, each with its block's time |
| LogScan.ScanCompleteIff | packages/history/src/contracts/historicalDataFilterer.ts:352-357 | a finished scan has sent all logs of the blocks it read iff no `saveEvents` threw; one cut short without such a throw has sent a beginning of them |
| LogScan.ThrowsExactly | packages/history/src/contracts/historicalDataFilterer.ts:360-393 | between successes the scan throws exactly at an error that is neither 413 nor rate limit and comes after as many back-offs as the present wait leaves |
| LogScan.NextRange | packages/history/src/contracts/historicalDataFilterer.ts:330-393 | after any errors that do not end the scan, the next range read starts where the scan stood and is as wide as its chunk reduced once per 413 among them: three quarters, rounded half up, never below 100, cut at the end block |
| LogScan.ErrorsEndured | packages/history/src/contracts/historicalDataFilterer.ts:360-393 | such errors change nothing but the chunk, a quarter off per 413, and the wait, doubled per other error up to 32 seconds |
| LogScan.FirstRange | packages/history/src/contracts/historicalDataFilterer.ts:315-345 | a scan begins with 9999 blocks, less the 413s before its first success, and four back-offs of patience |
| LogScan.ChunkMovesOn | packages/history/src/contracts/historicalDataFilterer.ts:352-357 | a successful query moves on by its chunk, sets the wait to two seconds, and widens a chunk below three quarters of 9999 by a quarter |
| LogScan.ThrowsAfterFour | packages/history/src/contracts/historicalDataFilterer.ts:352-393 | after a success the scan throws exactly at an error that is neither 413 nor rate limit and has four back-offs since the success before it |
| LogScan.RangeAfterSuccess | packages/history/src/contracts/historicalDataFilterer.ts:330-369 | else its next range begins where the last one ended, as wide as the widened chunk less the 413s in between |
| LogScan.FetchExactly | packages/history/src/contracts/historicalDataFilterer.ts:438-460 | five rate limits in a row are retried and the sixth is thrown; otherwise the first other reply decides |
| LogScan.TimesAskedOnce | packages/history/src/contracts/historicalDataFilterer.ts:430-460 | known block times cost no call, and after a saved chunk those of all its logs are known |
| LogScan.ScanTerminates | packages/history/src/contracts/historicalDataFilterer.ts:330-394 | however many 413 and rate-limit errors come, a scan ends after a bounded number of other answers |
| LogScan.MildScanLosesNothing | packages/history/src/contracts/historicalDataFilterer.ts:438-460 | under rate limits that never hold for six calls in a row no log is dropped and nothing is thrown |
| LogScan.Filterer.OnLog | packages/history/src/contracts/historicalDataFilterer.ts:161-174 | the call back hands over exactly what is not older than its event's watermark |
| LogScan.Filterer.GetBlockTime | packages/history/src/contracts/historicalDataFilterer.ts:438-460 | five rate-limit errors are retried, any other error and the sixth are thrown; a success fills the cache with the block's time |
| LogScan.Filterer.SaveEvents | packages/history/src/contracts/historicalDataFilterer.ts:404-471 | the loop computes `Save`: call backs, cache, replies used and how it stopped |
| LogScan.Filterer.OnError | packages/history/src/contracts/historicalDataFilterer.ts:364-393 | the catch block: smaller chunk, longer wait, or throw |
| LogScan.Filterer.QueryChunk | packages/history/src/contracts/historicalDataFilterer.ts:345-359 | the try block: the block number moves on before events are saved |
| LogScan.Filterer.GenericFilterer | packages/history/src/contracts/historicalDataFilterer.ts:303-402 | the loop computes `Scan` for every stream of RPC answers |
| Backfill.EventTimestamps | packages/history/src/svc/backfillRunner.ts:72-106 | each of the eleven events, by name, has the watermark of its own table's query, and no entry if that has none |
| Backfill.StartDate | packages/history/src/svc/backfillRunner.ts:108-110 | the earliest of all watermarks and the default date |
| Backfill.StartDateUnique | packages/history/src/svc/backfillRunner.ts:108-110 | there is one such date; it is the default one iff no watermark is older |
| Backfill.RunIsOrderly | packages/history/src/contracts/historicalDataFilterer.ts:161-174 | however a run ends, handler calls are in chain order, none twice, and with skipping on none is older than its watermark |
| Backfill.HandedOverIff | packages/history/src/contracts/historicalDataFilterer.ts:161-174 | a finished run without a throw hands over a log below the head iff it lies at or above the start block and is not skipped |
| Backfill.RunIsComplete | packages/history/src/contracts/historicalDataFilterer.ts:271-283 | such a run hands over every log below the head that is not older than its event's watermark, or the start date if it has none |
| Backfill.RunHistoricalDataFilterers | packages/history/src/svc/backfillRunner.ts:42-292 | one run end to end, for all tables, chains and RPC answers: orderly always, complete when finished without a throw, neither failing nor dropping under mild rate limits |
| Tables.Table.Upsert | packages/history/src/db/trading_history.ts:92-102 | other rows stay, a new row takes all columns, an old one all but its fixed ones; the table stays the replay of all deliveries |
| Tables.Table.UpsertAll | packages/history/src/db/token_flow.ts:84-108 | after any deliveries one by one, if equal keys carry equal payloads, the table holds exactly the delivered events' contents |
| Tables.ReplayStores | packages/history/src/db/token_flow.ts:84-108 | if equal keys carry equal payloads, the table holds exactly the delivered events' contents |
| Tables.SameEventsSameContents | packages/history/src/db/token_flow.ts:84-108 | two delivery sequences with the same events leave the same rows in all columns but the collection flag and the update time |
| Tables.FirstFixedStays | packages/history/src/db/trading_history.ts:92-102 | columns outside the update part stay as the first delivery wrote them |
| Tables.LastWriteWins | packages/history/src/db/settle_history.ts:49-55 | columns in the update part are the last delivery's |
| Tables.OrderIrrelevantIff | packages/history/src/db/settle_history.ts:41-66 | every order of the deliveries leaves the same contents iff equal keys carry equal payloads |
| Tables.RecordsDetermineTable | packages/history/src/db/token_flow.ts:84-108 | deliveries agree iff no key has two contents, and then the table is exactly the set of delivered records |
| Records.ExecutionsDetermineTrades | packages/history/src/db/trading_history.ts:31-102 | for any deliveries of trades and liquidations, repeated, reordered, live or backfilled: they agree iff events with one key are recorded alike, and then the trade table holds exactly one row per key with all columns of its event |
| Records.SideTells | packages/history/src/db/trading_history.ts:60-62 | the side is a buy iff the quantity is positive, and one of trades iff the event is a trade |
| Records.CommonColumns | packages/history/src/db/trading_history.ts:44-86 | fee, profit, price, position, quantity, perpetual, time, trader and hash of a row are the event's own |
| Records.OrderColumns | packages/history/src/db/trading_history.ts:44-86 | broker, flags and leverage of a trade are its order's; a liquidation has none |
| Records.QuoteQuantity | packages/history/src/db/trading_history.ts:44-56 | the quantity in collateral currency is fB2C * fAmount / 2^64, cut off toward zero |
| Records.SameRowIff | packages/history/src/db/trading_history.ts:111-124 | two executions share a row iff they are trades of one order, or liquidations alike in the parts of their id |
| Records.SidesByKey | packages/history/src/db/trading_history.ts:127-173 | whatever is delivered, the two watermark queries, which select by side, select the rows of orders and those of liquidations |
| Records.FillQueryFindsNewestFill | packages/history/src/db/trading_history.ts:127-147 | the trade watermark is an hour before the newest trade whose row a backfill wrote last, or none |
| Records.LiquidationQueryFindsNewest | packages/history/src/db/trading_history.ts:149-173 | and the liquidation watermark is that of the newest such liquidation |
| Records.LatestTimestamp | packages/history/src/db/trading_history.ts:127-173 | the query itself: an hour before the newest backfilled row selected, or none |
| Records.OneOrderOneFill | packages/history/src/db/trading_history.ts:92-102 | two trades with one order digest share a row: it keeps the columns of the one delivered first and takes only the time of the one delivered last |
| Records.SettleVersionsAgreeIff | packages/history/src/svc/backfillRunner.ts:138-169 | the V1 and V2 deliveries of one settlement agree on their common row iff no cash was reported |
| Records.SettlementAddsUp | packages/history/src/db/settle_history.ts:31-66 | quantity and cash of a settlement add up to its amount, at the block's time |
| Records.LowerOnlyLetters | packages/history/src/db/trading_history.ts:37-38 | hashes and addresses are stored with upper-case letters turned to lower case and nothing else changed |
| Records.DeliveryMovesNetFlowOnce | packages/history/src/db/token_flow.ts:35-109 | a deposit adds its amount to its trader's net flow in the transaction, a withdrawal takes its amount off, once; repeats and other traders' or transactions' flows move nothing |
| Records.NetFlowIsDepositsLessWithdrawals | packages/history/src/db/token_flow.ts:35-109 | for any deliveries: the net flow that the stored rows add up to is the sum of the deposits less the sum of the withdrawals, less every flow whose key has come before |
| Records.NothingRepeated | packages/history/src/db/token_flow.ts:35-109 | with different keys nothing is taken off |
| Records.SecondFlowIsDropped | packages/history/src/db/token_flow.ts:84-108 | of two deposits or two withdrawals of one trader and perpetual in one transaction only the first counts; the net flow is right iff the second is zero |
| Records.NetFlowsDependOnEventsOnly | packages/history/src/db/token_flow.ts:84-108 | replays of the same flows leave every net flow unchanged |
| EventWrites.GroupReadsBack | packages/history/src/svc/backfillRunner.ts:112-245 | an event belongs to a table of the crash-and-resume machine iff its handler's write is selected by that table's watermark query |
| EventWrites.WrittenIff | packages/history/src/svc/backfillRunner.ts:112-245 | exactly trades, liquidations, both settlements, deposits and withdrawals are written to the three tables and followed by the machine |
| EventWrites.SameGroupIff | packages/history/src/svc/backfillRunner.ts:72-90 | two of these events share a watermark iff their rows go to the same table, and in the trade table to the same kind of row |
| EventWrites.WriteIsStamped | packages/history/src/svc/backfillRunner.ts:112-245 | every write carries the block's time, the hash and whether a backfill made it |
| EventWrites.AmountsOf | packages/history/src/svc/backfillRunner.ts:138-205 | deposits count up, withdrawals down; the first version of a settlement is stored without cash |
| CrashResume.StartKeeps | packages/history/src/svc/backfillRunner.ts:72-110 | a starting run's start block and skips leave no log of the table behind that is not stored or under way |
| CrashResume.EarlyStartPassesNone | packages/history/src/svc/backfillRunner.ts:72-110 | the condition on starting runs holds whenever the table has a watermark or the start date is not after the first date |
| CrashResume.DispatchKeeps | packages/history/src/contracts/historicalDataFilterer.ts:161-174 | handing over or skipping the next log keeps the invariant |
| CrashResume.StoreKeeps | packages/history/src/db/trading_history.ts:92-102 | finished writes keep the invariant in any order, live ones and ones that move a watermark included |
| CrashResume.CrashKeeps | packages/history/src/db/trading_history.ts:141-143 | a crash keeps it if every lost write is within an hour of the newest backfilled row of its table |
| CrashResume.NoLogIsLost | packages/history/src/svc/main.ts:184-216 | table by table, over every history of overlapping runs, throws of the scan, crashes and writes: once a run has finished and writes are through, every log of the table since the first date and below that run's head is stored, for good; a throw out of `saveEvents` that a run survives is no step of the machine |
| CrashResume.NoTableLosesALog | packages/history/src/svc/main.ts:184-216 | for all four tables at once, by the events' names: every trade, liquidation, settlement of either version, deposit and withdrawal since the first date and below the head is stored in its table |
| CrashResume.ScanWalksTheLogs | packages/history/src/contracts/historicalDataFilterer.ts:330-357 | a scan without throws hands over the chain's logs one after the other from the start block, as the steps of the machine do |
| CrashResume.RedeliveredIffRecent | packages/history/src/db/trading_history.ts:127-173 | the next finished, skipping run hands a log over again iff it is at most an hour older than every backfilled row of its table |
| CrashResume.WatermarksAreQueried | packages/history/src/svc/backfillRunner.ts:72-90 | where the four watermarks are an hour before the newest backfilled rows of the four tables, the map that is built is the one the machine's runs have |
| CrashResume.ResumedRun | packages/history/src/svc/backfillRunner.ts:72-110 | a skipping run with its watermarks read from the tables: finished without a throw out of `saveEvents`, it has handed over a log of a table with backfilled rows iff that is at most an hour older than all of them |
| CrashResume.UnsafeStartLosesALog | packages/history/src/svc/main.ts:204-212 | from any state, other runs under way included: if a run starts while the table has no watermark, above a log of it that is neither stored nor being written and has its key to itself, the service can go on without a crash or another start to where that run has finished, writes are through and the log is missing, and lost if the run meets one more than an hour newer |
| CrashResume.SafeStartIff | packages/history/src/svc/main.ts:204-212 | where no two logs share a key and the invariant holds: a starting run passes no missing log of the table iff the service cannot go on, without a crash or another start, to lose one |
| CrashResume.LostForGood | packages/history/src/db/trading_history.ts:127-145 | a log lost in this sense stays missing through every sequence of skipping runs from any start date, writes and crashes, live rows of the two logs apart |
| CrashResume.CrashLosesOldWrites | packages/history/src/db/trading_history.ts:141-143 | a crash loses in this sense every unfinished write more than an hour older than a backfilled row of its table |
| CrashResume.LateStartLosesALog | packages/history/src/svc/main.ts:204-212 | every chain with two logs of a table more than an hour apart, each with its key to itself, has a crash-free history from empty tables that loses the older one: the first run starts between them |
| CrashResume.OldLossIsNotMadeGood | packages/history/src/db/trading_history.ts:141-143 | and one with a single crash, after the later of two writes has finished and before the older one has |
| PerpetualNames.PerpetualLongIds.FindPredecessor | packages/history/src/db/set_oracles.ts:84-100 | the open interval of the perpetual that began last before the event, or none |
| PerpetualNames.PerpetualLongIds.Insert | packages/history/src/db/set_oracles.ts:71-130 | the table after an undisturbed insert: nothing for a known hash, else predecessor closed and an open row added |
| PerpetualNames.InsertExact | packages/history/src/db/set_oracles.ts:71-130 | an insert row by row: a known hash changes nothing; else one open row is added, and the open row of the perpetual that began last before the event, if any, now ends with it |
| PerpetualNames.FourCallsInsert | packages/history/src/db/set_oracles.ts:71-130 | the four calls of an insert that nothing comes between do just that |
| PerpetualNames.PerpetualLongIds.AlignTimestamps | packages/history/src/db/set_oracles.ts:139-153 | each row with a later one ends where the next begins, rows that begin together may end at that same instant, all else is unchanged |
| PerpetualNames.InsertKeepsTidyIff | packages/history/src/db/set_oracles.ts:71-130 | an undisturbed insert keeps intervals meeting end to start iff its event is later than all rows of its perpetual |
| PerpetualNames.TaskKeeps | packages/history/src/db/set_oracles.ts:71-130 | any single database call of any insert keeps the table's invariant |
| PerpetualNames.AlignKeeps | packages/history/src/db/set_oracles.ts:139-153 | so does an alignment in the middle of inserts |
| PerpetualNames.LastRowIsOpen | packages/history/src/db/set_oracles.ts:101-129 | once all inserts are through, the last row of each perpetual is open, unless another begins with it |
| PerpetualNames.AlignedTableIsCanonical | packages/history/src/db/set_oracles.ts:71-153 | after any interleaving of inserts, repeats and alignments, a final alignment makes each row end where the next begins and the last at the far date; last rows that begin together end at once |
| PerpetualNames.SameEventsSameTable | packages/history/src/db/set_oracles.ts:71-153 | confluence: the final table depends only on the set of delivered events |
| PerpetualNames.FirstOfTransactionWins | packages/history/src/db/set_oracles.ts:71-79 | in every history a row, once created, keeps its perpetual, name and start: of all events of a transaction the one whose row is created first has it for good |
| PerpetualNames.SharedTransactionBreaksConfluence | packages/utils/prisma/schema.prisma:187-196 | whatever else is delivered, two different events of one transaction give two histories with the same events that end in different tables |
| PerpetualNames.TwinsBreakConfluence | packages/history/src/db/set_oracles.ts:139-153 | two events of a perpetual that begin together before a third: alignment can leave two different tables |
| PerpetualNames.OneOutcomeIff | packages/history/src/db/set_oracles.ts:71-153 | for all events before the far date: they determine the aligned table iff no two of them share a transaction and none of a perpetual begins after two that begin together |
| PerpetualNames.TradeJoinsOneNameIff | packages/utils/prisma/migrations/20260210120000_refresh_tradeview/migration.sql:1-8 | in the aligned table a trade joins at most one row, and joins one iff the far date is not reached and the event of its perpetual that began last by then began alone |
| PerpetualNames.AloneIff | packages/utils/prisma/migrations/20260210120000_refresh_tradeview/migration.sql:1-8 | where no two events of a perpetual begin together, there is such an event iff the perpetual has begun |
| PerpetualNames.JoinsFromItsStart | packages/utils/prisma/migrations/20260210120000_refresh_tradeview/migration.sql:1-8 | a trade at the instant a name begins joins its row, one at the instant it ends does not |
| Gaps.NoGapIff | packages/history/src/svc/gaps.ts:51-71 | no gap is reported iff every window longer than the threshold between first and last row contains a row |
| Gaps.DetectAndFillGaps | packages/history/src/svc/gaps.ts:73-116 | one backfill per distinct gap start, most recent first, from no earlier than the clamp, up to the first that throws |
| Gaps.GapIsRescanned | packages/history/src/svc/gaps.ts:108-114 | each reported gap whose backfill is issued, which is every one unless a backfill for a later gap throws, has a backfill that, finished without a throw out of `saveEvents`, hands over every log of the gap from the clamp on, skipping nothing |
| DeploymentSearch.AnswersIff | packages/history/src/svc/main.ts:366-405 | a code is had iff an answer is among the next eleven replies with nothing but errors before it |
| DeploymentSearch.Provider.GetCodeAt | packages/history/src/svc/main.ts:366-405 | the code at the block iff it is had in that sense, else a throw; which replies are used up |
| DeploymentSearch.ReachIs | packages/history/src/svc/main.ts:417-426 | eight doubling steps from 10,000, then steps of 2,000,000 |
| DeploymentSearch.WalkBack | packages/history/src/svc/main.ts:416-427 | the first loop: a bracket at most 2,000,000 wide without code at its lower and with code at its upper end; the blocks probed are the ends of the steps |
| DeploymentSearch.Bisect | packages/history/src/svc/main.ts:429-438 | the second loop: the boundary in the bracket after at most 21 probes, or a throw when the node gives no further code |
| DeploymentSearch.GetCloseDeploymentBlock | packages/history/src/svc/main.ts:410-442 | min(D, head-1000)-1 for a contract present from block D on; at most 8 + head/2,000,000 probes back and 21 bisecting; it throws only where the node has no further code to give; bounds that hold whatever the node says |
| SubscriptionHub.RemoveAllExact | packages/api/src/eventListener.ts:439-472 | the removal loop takes the client out of exactly its pairs outside the excepted pool, keeps all other lists as they were and leaves nothing empty |
| SubscriptionHub.PoolHas | packages/api/src/eventListener.ts:445-450 | the excepted pool has the hundred thousand perpetual ids that begin with its number |
| SubscriptionHub.WithoutFirst | packages/api/src/eventListener.ts:455-461 | only the client's first occurrence leaves a list, and the others keep their order |
| SubscriptionHub.SubscribingKeepsSound | packages/api/src/eventListener.ts:370-405 | a new subscription, also after an earlier attach has failed, keeps both indexes free of duplicates and strands nobody, and makes nobody stranded whole |
| SubscriptionHub.SubscribingKeepsInverse | packages/api/src/eventListener.ts:370-405 | a new subscription keeps the two indexes inverse and free of duplicates |
| SubscriptionHub.UnsubscribingKeepsInverse | packages/api/src/eventListener.ts:421-431 | so does a client's departure |
| SubscriptionHub.UnsubscribingRestoresIff | packages/api/src/eventListener.ts:421-431 | a departure makes the indexes inverse iff the departing client was the only one stranded and had subscribed to every perpetual without traders |
| SubscriptionHub.FailedAttachStrands | packages/api/src/eventListener.ts:392-397 | after attaching has thrown the client holds a subscription that nothing is sent for, and its departure makes the indexes inverse again |
| SubscriptionHub.AttachKeepsExact | packages/api/src/eventListener.ts:392-397 | attaching for a perpetual's first subscriber keeps handlers on exactly the live perpetuals |
| SubscriptionHub.DetachKeepsExact | packages/api/src/eventListener.ts:465-469 | detaching for its last subscriber keeps it too |
| SubscriptionHub.ExactIff | packages/api/src/eventListener.ts:392-397 | handlers that are right for all live perpetuals but some are right for all of them iff there are none of these |
| SubscriptionHub.FailedAttachStaysUnattached | packages/api/src/eventListener.ts:392-397 | the next subscriber to that perpetual is served without handlers |
| SubscriptionHub.SharedIdLeavesHandlers | packages/api/src/eventListener.ts:285-290 | two symbols with one perpetual id break exactness |
| SubscriptionHub.EventListener.Subscribe | packages/api/src/eventListener.ts:364-406 | which of the four outcomes occurs and the whole new state for each, also after earlier failures; the indexes stay inverse iff attaching handlers does not throw; handlers stay right for every live perpetual whose attaching has not thrown, and are exact iff there is no other |
| SubscriptionHub.EventListener.Unsubscribe | packages/api/src/eventListener.ts:421-437 | the client is gone, every other list and client as before, the released perpetuals are exactly those without a subscriber; when the indexes are inverse afterwards, and when handlers are exact |
| SubscriptionHub.EventListener.UnsubscribeAll | packages/api/src/eventListener.ts:439-472 | the loop computes `RemoveAll`, reports what it releases and keeps handlers right for every live perpetual whose attaching has not thrown |
| SubscriptionHub.EventListener.SendToSubscribers | packages/api/src/eventListener.ts:529-573 | a targeted message reaches each subscribed client that is not stranded exactly once and nobody else; a broadcast reaches each client once per address it holds |
| EventControl.RingIsLastTen | packages/api/src/eventListener.ts:1083-1089 | the ring's entries are the last ten hashes granted |
| EventControl.LastTenAre | packages/api/src/eventListener.ts:1079-1091 | ten grants are remembered, or all if there are fewer |
| EventControl.WindowsStayDistinct | packages/api/src/eventListener.ts:1083-1089 | any eleven consecutive grants stay pairwise different |
| EventControl.ElevenDiffer | packages/api/src/eventListener.ts:1079-1091 | any eleven consecutive grants are pairwise different |
| EventControl.Ring.Grant | packages/api/src/eventListener.ts:1079-1091 | a hash passes iff it is not among the last ten that passed |
| EventControl.EventListener.GrantEventControlPassage | packages/api/src/eventListener.ts:1079-1091 | the same per handler; the other handlers' rings are untouched |
| RpcQueue.EveryUrlServedOnce | packages/api/src/rpcManager.ts:20-33 | n requests without health check are given each of n URLs once, last to first, and leave the queue as it was |
| RpcQueue.RPCManager.CycleRPCs | packages/api/src/rpcManager.ts:48-71 | the last URL goes to the front; its health is checked iff unknown or older than a minute |
| RpcQueue.PassesIff | packages/api/src/rpcManager.ts:48-71 | a URL in its first turn is held healthy iff it answers, where a check is due, or else iff it was last known to be |
| RpcQueue.FirstTurn | packages/api/src/rpcManager.ts:53-67 | a URL in its first turn that is unknown, or was last checked more than 60,000 ms ago, passes iff the check succeeds; one checked later passes iff it was then healthy |
| RpcQueue.StaleIsChecked | packages/api/src/rpcManager.ts:53-67 | a check that is due sets the URL's health and time and no other's |
| RpcQueue.NotCheckedTwice | packages/api/src/rpcManager.ts:53-67 | within 60,000 ms of a check there is no other |
| RpcQueue.RPCManager.GetRPC | packages/api/src/rpcManager.ts:20-33 | the first URL in cyclic order that is held healthy after its turn, or none, exactly if none is, with the queue as it was; where all last checks are more than a minute old, the first URL to answer its check |
| RpcQueue.RPCManager.RequestEach | packages/api/src/rpcManager.ts:20-33 | n calls of `getRPC` without health check return each of n URLs once, last to first, and leave the queue as it was |
| RpcQueue.RPCManager.AddRPC | packages/api/src/rpcManager.ts:39-41 | the URL goes behind all others, where the next request takes it |
| RpcQueue.NoUrlIsLost | packages/api/src/rpcManager.ts:20-71 | under any interleaving of requests and additions, queue and URLs in flight together are those given; with nothing in flight the queue is a reordering of them |
| RpcQueue.TryTurnsQueue | packages/api/src/rpcManager.ts:20-71 | in the machine of interleaved requests, a request that is let through takes, turns and returns the URLs just as `getRPC` does |
| RpcQueue.TriesRunOut | packages/api/src/rpcManager.ts:20-33 | and throws after one try per URL, with the queue as it was |
| FixedPoint.PrintedReadsBackIff | packages/utils/src/utils.ts:218-270 | a decimal-N integer prints iff N is at least 1, and reads back exactly |
| FixedPoint.PrintedShape | packages/utils/src/utils.ts:218-230 | a printed number is its integer part, a point and exactly N digits, with the sign apart |
| FixedPoint.PrintAgreesWithDec18 | packages/utils/src/utils.ts:278-295 | `ABK64x64ToFloat` prints for every number, and the printed 18 digits read as the integer conversion says, for either sign |
| FixedPoint.ToDecNIs | packages/utils/src/utils.ts:291-295 | for every N, the integer conversion is x * 10^N / 2^64 cut off toward zero |
| FixedPoint.FloatToBinaryIs | packages/utils/src/utils.ts:302-315 | a printed 18-digit decimal becomes d * 2^64 / 10^18 cut off toward zero |
| FixedPoint.BinaryRoundTrip | packages/utils/src/utils.ts:278-315 | 64.64 to printed digits and back moves toward zero by at most 19 units |
| FixedPoint.DecimalRoundTrip | packages/utils/src/utils.ts:278-315 | printed 18 digits to 64.64 and back to print lose at most one unit |
| FixedPoint.RoundTripBoundsAreTight | packages/utils/src/utils.ts:278-315 | both bounds are reached |
| Percentages.AddsUpExactly | packages/utils/src/utils.ts:43-63 | the entries add up to exactly 100 percent and at most half the number of non-zero entries is left over |
| Percentages.ScaledIsNearest | packages/utils/src/utils.ts:38-41 | a scaled entry is the integer nearest to the input times the power of ten, halves up |
| Percentages.ShareIsNearest | packages/utils/src/utils.ts:43-50 | what every non-zero entry gives up is the integer nearest to the error over their number, halves up |
| Percentages.EntriesStayClose | packages/utils/src/utils.ts:30-36 | every entry moves by that share, and one of them by what is left over as well |
| Percentages.FirstOfEqualsTakesTheRest | packages/utils/src/utils.ts:52-62 | of equal greatest entries the first takes what is left over |
| Percentages.AdjustNDigitPercentagesTo100 | packages/utils/src/utils.ts:38-66 | which entry takes what is left over, and the exact sum; the empty list is the only one without a result |
| Percentages.ShiftAll | packages/utils/src/utils.ts:52-61 | non-zero entries are lowered in place, added up, and the first greatest positive one is found |
| Percentages.ZerosStayIff | packages/utils/src/utils.ts:30-36 | zeros stay zero iff nothing is left over, an entry is positive after the shift, or the first entry was not zero |
| Percentages.EntriesCanTurnNegative | packages/utils/src/utils.ts:30-36 | 200.00 and 0.01 become 150.00 and -50.00 |
| Percentages.NonNegativeIff | packages/utils/src/utils.ts:30-36 | for all inputs: no entry turns negative iff, where some entry is positive after the shift, no non-zero entry is below the share given up and the greatest covers what is left over, and where none is, every entry but the first is zero or the share |

## Left out

- Share-token transfers and liquidity withdrawals: their keys and existence checks do not identify an event.
- Funding payments, earnings and oracle events in the crash-resume theorem: their watermarks have no overlap, so every lost write older than the newest row stays lost.
- Failed database writes and undecodable logs: writes either finish or are lost with the process; `saveEvents` throws through `getBlock` only.
- The eight watermark queries are read at one moment when a run starts; the source awaits them one by one.
- Timeouts around the block search, and its RPC errors: they end a run before it scans.
- Skip counts, metrics and log lines: never read back.
- A crash between closing a predecessor and creating its successor in `perpetual_long_id`: inserts run to completion.
- The assembly of perpetual names from four-byte symbols: events carry their name.
- Liquidation ids and order hashes are taken as injective in their parts.
- The exchange-info cache (single flight, refresh cooldown) and the price outlier check: no other part reads them.
- Provider failover, reconnection and process exits: timeouts dominate.
- Contract objects left half-registered by a failed attach: it is taken to throw before the object is stored.
- Broadcast order over a perpetual's traders: a message is counted per client.
- IEEE floats in printing and parsing, and powers of ten beyond 22: exact decimals stand for them; percentages use reals.
- The timestamp looked up for the deployment block, and superseded variants of the time search.
- Express routes, JSON, transport, Prisma, Redis and ethers internals.
