# UltraBacktest: a verified model

UltraBacktest replays historical market events against a strategy and accounts for the fills that
result. This project models the parts of it that carry state and arithmetic, and proves what they
compute over every input and every run:

- the **portfolio ledger**: positions with a truncated average price, cash, fees, profit and loss;
- the **pre-trade risk check**, composed with the ledger and with orders that rest, fill in pieces
  and are cancelled;
- the **streaming performance statistics**: drawdown, mean and variance of returns;
- the **readers and the replay loop**: CSV lines out of a sliding buffer, row decoding, symbol ids,
  chunked binary records, and the two-slot lookahead over either reader.

Objects the program updates in place are classes whose `Valid()` ties the fields to a function of
their history (`LedgerRun` of the fills and marks, `Track` of the equities, the unread part of the
file), so a law about that function is a law about every reachable object. `dafny verify
dfyconfig.toml` checks everything.

## How the pieces fit

| file | content |
|---|---|
| `Arithmetic.dfy`, `RealArithmetic.dfy`, `Options.dfy` | truncating division, sums, small facts |
| `Positions.dfy`, `PnlConservation.dfy`, `EntryPrice.dfy`, `FillLaws.dfy` | one symbol's position and its laws |
| `Ledgers.dfy`, `Portfolio.dfy`, `Overflow.dfy`, `CashSafety.dfy` | the whole portfolio, the class, 64-bit safety |
| `RiskGate.dfy`, `PositionDrift.dfy` | the check, and runs of orders behind it |
| `Performance.dfy`, `Drawdown.dfy`, `ReturnStatistics.dfy` | the online statistics and their batch definitions |
| `Events.dfy`, `Files.dfy`, `TextLines.dfy`, `SymbolMapper.dfy`, `TickDecoder.dfy`, `CsvReader.dfy`, `CsvRoundTrip.dfy`, `BinaryReader.dfy` | files, lines, rows, ids, readers |
| `ReplayWindow.dfy`, `ReplayEngine.dfy` | the replay loop |

## Where code and documentation differ

- `total_equity` is documented as cash plus the marked value of the positions
  (include/ultrabacktest/portfolio/portfolio.hpp:55-58). Realised profit is already in cash and is
  added again. `EquityIdentity` gives the exact amounts, `EquityMatchesHeaderIff` says exactly when the
  two agree, wrapped counters included, `EquityDoubleCounts` shows an input where they do not.
- `num_trades` is a 32-bit counter, and `total_pnl` skips a flat position whose counter reads zero.
  The model keeps the wrap: `EquityIdentity` accounts for what is skipped and `WrappedCounterHidesPnl`
  reaches it.
- The average price is documented as volume-weighted; it is truncated at each adding fill.
  `PnlConserved` and `PnlErrorBound` measure the effect.
- The CSV reader's comment speaks of a header "if present"; the first line is always skipped.
- `max_drawdown_pct` compares with the running peak only. It is the largest relative fall between two
  times on curves that never go negative (`PctIsBatch`); below zero it may not be
  (`PctDiffersBelowZero`), and `PctIsBatchIff` says exactly when it is.
- No return is recorded on an equity of zero or less, so the recorded returns need not compound to the
  total return (`LossBreaksCompounding`); `CompoundsUnlessLost` and `CompoundsIff` say exactly when
  they do.

## Model

| member | source | states |
|---|---|---|
| `PnlConservation.PnlConserved` | src/portfolio.cpp:20-81 | over every history of fills and marks, realised plus unrealised P&L is sell minus buy notional plus the held quantity at the last price, plus exactly the signed remainders of the average-price divisions |
| `PnlConservation.StepConserves` | src/portfolio.cpp:20-62 | only an adding fill drops a remainder; reductions, closes, flips and marks are exact |
| `PnlConservation.PnlErrorBound` | src/portfolio.cpp:20-81 | the reported P&L is off by at most the sum of (size after the fill - 1) over adding fills; a flat position has realised its cash flow plus the dropped remainders |
| `PnlConservation.ErrorBudgetReached` | src/portfolio.cpp:21-25 | that bound is attained for every number of fills n: buying one unit at 0, 1, …, n - 1 reports n(n - 1)/2 too much |
| `Positions.RunInvariant` | src/portfolio.cpp:20-81 | in every history the net quantity is bought minus sold, the last price that of the last event, volume and trade counter (mod 2^32) count the fills, unrealised P&L is current, and a flat position has no entry price |
| `Positions.FillMoves` | src/portfolio.cpp:20-81 | a buy of any quantity raises the net position by it and a sell lowers it, and only what it takes off the held side realises profit: exit minus entry on a long, entry minus exit on a short |
| `EntryPrice.AverageWithinLegPrices` | src/portfolio.cpp:21-61 | in every reachable non-flat position the average lies between the lowest and highest price of the fills that opened or added to the current leg |
| `FillLaws.SplitExact` | src/portfolio.cpp:20-62 | a fill from flat or against the position may be cut into any pieces at one price without changing net, average, realised or unrealised P&L, wherever the cuts fall |
| `FillLaws.FlipIsCloseThenOpen` | src/portfolio.cpp:28-39 | a flip is a close followed by an opening fill |
| `FillLaws.SplitAddLosesAtMost` | src/portfolio.cpp:21-25 | cutting an adding fill into m pieces moves the average by at most m - 1, at any prices; at non-negative ones it can only lower it |
| `FillLaws.SplitAddLossReached` | src/portfolio.cpp:21-25 | that loss is attained for every m: on m(m - 1) units bought at 0, m single units at price m(m - 1) leave the average m - 1 lower than one fill does |
| `FillLaws.MirrorRun` | src/portfolio.cpp:20-81 | swapping buy and sell throughout a history negates net, realised and unrealised P&L and leaves average, volume, trade count and last price alone |
| `Ledgers.PositionsAreRuns` | src/portfolio.cpp:11 | symbols do not interfere: each position is the run of its own events |
| `Ledgers.CashIdentity` | src/portfolio.cpp:14-53 | in every reachable portfolio cash is the opening balance less all fees plus the realised P&L of all symbols |
| `Ledgers.FeesByVolume` | include/ultrabacktest/common/types.hpp:128-133 | all fees of a run are (share fee + taker fee) times the volume plus the flat fee times the number of fills |
| `Ledgers.SplitFees` | include/ultrabacktest/common/types.hpp:128-133 | m pieces cost m - 1 flat fees more than one fill |
| `Ledgers.MirrorLedger` | src/portfolio.cpp:14-81 | mirroring a whole log mirrors every position, keeps the fees and reflects the profit in cash |
| `Ledgers.EquityIdentity` | include/ultrabacktest/portfolio/portfolio.hpp:55-58 | cash plus unrealised P&L is the account's worth by plain bookkeeping plus the dropped remainders; `total_equity` adds the realised P&L again, less what a wrapped counter hides |
| `Ledgers.EquityMatchesHeaderIff` | src/portfolio.cpp:83-91 | for every log, `total_equity` agrees with its description if and only if total realised P&L equals what wrapped counters hide, and the conditional sum is the full sum if and only if they hide nothing in total; below 2^32 fills per symbol they hide nothing |
| `Ledgers.EquityDoubleCounts` | include/ultrabacktest/portfolio/portfolio.hpp:56-58 | after one round trip with profit 1 it is 1 too high |
| `Ledgers.WrappedCounterHidesPnl` | src/portfolio.cpp:86 | after 2^32 profitable fills a flat position's P&L is not counted |
| `PortfolioEngine.Portfolio.constructor` | include/ultrabacktest/portfolio/portfolio.hpp:31-38 | the initial fields are the empty ledger |
| `PortfolioEngine.Portfolio.OnExecution` | src/portfolio.cpp:6-68 | a fill report appends to the ledger the fill of its side, quantity and price (or an empty fill), and moves net quantity, volume, last price, cash and fee accordingly, on its own symbol only; anything else changes nothing |
| `PortfolioEngine.Portfolio.Settle` | src/portfolio.cpp:20-66 | the four branches compute the one signed rule, for quantity zero too, and move exactly the realised profit |
| `PortfolioEngine.Portfolio.UpdateM2M` | src/portfolio.cpp:70-81 | a mark moves the fields to the ledger with that mark appended |
| `PortfolioEngine.Portfolio.TotalPnl` | src/portfolio.cpp:83-91 | the loop returns the ledger's counted P&L |
| `PortfolioEngine.Portfolio.TotalEquity` | include/ultrabacktest/portfolio/portfolio.hpp:56-58 | returns the ledger's equity |
| `Overflow.SafeIff` | src/portfolio.cpp:17-91 | every log with prices within P and volume at most V keeps every intermediate of the position arithmetic and every partial sum of `total_pnl` within 64 bits if and only if 2PV < 2^63 |
| `CashSafety.CashFits` | src/portfolio.cpp:14-53 | with fees of any sign, cash, fees and total equity stay in range if the opening balance, the largest fees on W charged units and fills, and 2PV together do |
| `CashSafety.CashSafeIff` | src/portfolio.cpp:14-53 | with no negative fee, every log with prices within P and at most V charged units keeps all fees, cash balances and equities within 64 bits if and only if the fee of one fill of V, the highest equity (all profit at one flat fee, or no trade) and the lowest (all loss with a flat fee on every unit) fit |
| `RiskGate.Decide` | src/risk_engine.cpp:6-43 | which verdict is given when, in quantities: an order over the size limit, total P&L below minus the loss limit, an expected position beyond the position limit on either side, orders that reduce it included |
| `RiskGate.RiskEngine.CheckPreTrade` | src/risk_engine.cpp:6-43 | returns that verdict for the portfolio's current positions and P&L, and kills exactly on a loss breach by an order of legal size |
| `RiskGate.LossTripsIff` | src/risk_engine.cpp:16-21 | with a position opened at one price and marked at another, the switch trips if and only if the price difference times the quantity is a loss above the limit |
| `Overflow.ExpectedFitsIff` | src/risk_engine.cpp:29-38 | the expected position and its magnitude fit 64 bits for every log of volume at most V and every order of at most Q if and only if V + Q < 2^63 |
| `PositionDrift.DriftBound` | src/risk_engine.cpp:11-42 | over every run of submissions, partial fills, cancels, marks and kills with at most K orders resting per symbol and side, the position stays within L + (K - 1)M; with K = 1 within L, order limit or not |
| `PositionDrift.DriftIsExact` | src/risk_engine.cpp:25-40 | for every position, order and loss limit: a bound exists if and only if there is a position limit and either an order limit or one order at a time, and then L + (K - 1)M is the maximum, attained long and short |
| `PositionDrift.DriftUnbounded` | src/risk_engine.cpp:11-40 | otherwise some run ends at any given distance, long or short |
| `PositionDrift.KilledOnlyDrains` | src/risk_engine.cpp:7-9 | after the kill switch no side's position plus resting quantity ever grows again |
| `PositionDrift.ExposureStep` | src/risk_engine.cpp:31-40 | position plus resting quantity on a side rises exactly by an approved order, stays on a fill of that side, falls by a fill of the other side and by what a cancel gives back |
| `PositionDrift.StepTrips` | src/risk_engine.cpp:6-21 | the switch trips exactly on a submission of legal size under a loss breach, or by hand, and stays; only fills and marks move the book |
| `PositionDrift.StepIsLocal` | src/risk_engine.cpp:6-43 | a submission rests exactly if the check approves it, a cancel or full fill removes its order, a partial fill lowers its quantity, and no other order changes |
| `Performance.PerformanceAnalytics.constructor` | include/ultrabacktest/analytics/performance.hpp:30-40 | the initial values are those of an empty curve |
| `Performance.PerformanceAnalytics.Update` | src/performance.cpp:6-37 | the fields move to the statistics of the curve with the portfolio's total equity appended |
| `Drawdown.LeadingNegativesIgnored` | src/performance.cpp:9-14 | negative equities before the first non-negative one leave no trace |
| `Drawdown.DrawdownIsBatch` | src/performance.cpp:17-24 | the peak is the maximum so far and the drawdown the largest fall between any two times, attained |
| `Drawdown.PctIsPeakRelative` | src/performance.cpp:20-23 | from a non-negative start the percentage is infinite exactly when an equity goes negative before any was positive, and otherwise the largest fall relative to the peak of its time |
| `Drawdown.PctIsBatch` | src/performance.cpp:20-23 | on curves that never go negative it is the largest relative fall between any two times, attained, in [0, 1], and below 1 exactly if no equity is zero |
| `Drawdown.PctIsBatchIff` | src/performance.cpp:20-23 | on every curve from a positive start it is that largest fall if and only if no equity is negative, or all positive equities before the end of some deepest fall are equal |
| `Drawdown.PctDiffersBelowZero` | src/performance.cpp:20-23 | a curve below zero where the two definitions differ |
| `ReturnStatistics.WelfordIsTwoPass` | src/performance.cpp:27-34 | after every curve, negative starts included, count, mean and squared deviations are the two-pass values of the recorded returns |
| `ReturnStatistics.SharpeGuardExact` | src/performance.cpp:39-42 | after every curve the Sharpe guard fires exactly for fewer than two or all equal returns, and otherwise the sample variance is positive |
| `ReturnStatistics.TotalReturnValue` | src/performance.cpp:48-51 | the total return of every curve from its equities alone; zero if it has no equity that is not negative, or starts at zero |
| `ReturnStatistics.TotalReturnCompounds` | src/performance.cpp:48-51 | one plus the total return is the product of one plus each recorded return, if every equity but the last is positive |
| `ReturnStatistics.CompoundsUnlessLost` | src/performance.cpp:27-51 | on curves that never go negative it is, if and only if every equity but the last is positive or the last one is zero |
| `ReturnStatistics.CompoundsIff` | src/performance.cpp:27-51 | on every curve from a positive start: after a fall to exactly zero if and only if the last equity is zero, otherwise if and only if the unrecorded recoveries cancel the point where the curve last went down; on curves that end above zero, if their product is 1 |
| `ReturnStatistics.GrowthAndRecoveries` | src/performance.cpp:27-36 | the exact gap: recorded growth times the unrecorded recoveries leads from the first equity to the one last arrived at |
| `ReturnStatistics.LossBreaksCompounding` | src/performance.cpp:27-36 | after an equity of zero it is not |
| `ReturnStatistics.ScaleInvariance` | src/performance.cpp:6-51 | scaling all equities by c > 0 scales peak and drawdown and leaves percentage, return statistics and total return alone |
| `Files.InputFile.Read` | include/ultrabacktest/data/csv_reader.hpp:151 | some non-empty part of what is left, or nothing at the end of the file or for an empty request |
| `Files.RecordFile.Read` | include/ultrabacktest/data/binary_reader.hpp:81 | the records asked for, or as many as are left |
| `TextLines.LinesAreTheText` | include/ultrabacktest/data/csv_reader.hpp:114-136 | the lines put together with their endings (newline, carriage return and newline, or none at the very end) are the text: no byte lost or repeated |
| `TextLines.LinesOfUnlines` | include/ultrabacktest/data/csv_reader.hpp:114-125 | splitting undoes joining, for any mixture of line endings |
| `CsvReading.CsvReader.ReadLine` | include/ultrabacktest/data/csv_reader.hpp:103-158 | for every file, chunking and capacity, the unread bytes are the returned line, its ending and what is unread afterwards; false exactly at the end |
| `CsvReading.CsvReader.Refill` | include/ultrabacktest/data/csv_reader.hpp:138-156 | compaction, growth and reading keep the unread bytes, and either the file advances or it has ended |
| `CsvReading.CsvReader.Advance` | include/ultrabacktest/data/csv_reader.hpp:86-101 | the lookahead holds the next event of the file's stream, or the stream is over |
| `CsvReading.CsvReader.constructor` | include/ultrabacktest/data/csv_reader.hpp:31-50 | an opened reader will deliver all events of the file |
| `CsvReading.CsvReader.ReadNext` | include/ultrabacktest/data/csv_reader.hpp:52-57 | delivers the next event of the stream, or leaves the slot untouched at the end |
| `CsvReading.CsvReader.HasNext` | include/ultrabacktest/data/csv_reader.hpp:59-61 | true exactly while an event is undelivered |
| `CsvReading.CsvReader.Reset` | include/ultrabacktest/data/csv_reader.hpp:63-76 | the whole stream again, ids included, though the mapper keeps its names |
| `SymbolMapping.SymbolMapper.GetOrCreate` | include/ultrabacktest/data/tick_decoder.hpp:23-33 | returns the id of the name among the names in order of first appearance, 32-bit wrap included |
| `SymbolMapping.IdCountsEarlierNames` | include/ultrabacktest/data/tick_decoder.hpp:23-37 | over every call history an id is one more than the number of names that came first, modulo 2^32 |
| `SymbolMapping.CallsAreStable` | include/ultrabacktest/data/tick_decoder.hpp:27-28 | an id returned once is the id for good |
| `SymbolMapping.IdsAreDense` | include/ultrabacktest/data/tick_decoder.hpp:30-32 | ids count up from 1, and tell names apart if and only if there are at most 2^32 of them |
| `SymbolMapping.IdsFitIff` | include/ultrabacktest/common/types.hpp:170 | all ids index the position array if and only if at most 255 names were seen |
| `TickDecoding.SplitColumns` | include/ultrabacktest/data/tick_decoder.hpp:54-70 | the columns are the first ten fields of the comma split, without the empty one after a final comma |
| `TickDecoding.ColumnsOfFields` | include/ultrabacktest/data/tick_decoder.hpp:54-70 | for any fields, the columns of their row are those fields up to ten, without an empty last one |
| `TickDecoding.SplitThenJoin` | include/ultrabacktest/data/tick_decoder.hpp:61-70 | the split loses nothing and no field holds a comma |
| `TickDecoding.JoinThenSplit` | include/ultrabacktest/data/tick_decoder.hpp:61-70 | splitting undoes joining |
| `TickDecoding.TickDecoder.DecodeCsv` | include/ultrabacktest/data/tick_decoder.hpp:53-128 | the event of the row or a rejection that leaves the slot, and the names known afterwards |
| `TickDecoding.RowMeaning` | include/ultrabacktest/data/tick_decoder.hpp:72-128 | for any fields: accepted if and only if there are six columns, the numbers parse and the kind begins with T or A; which event, side and id it gives; its name is registered as soon as the time parses |
| `TickDecoding.DecodingIsRepeatable` | include/ultrabacktest/data/tick_decoder.hpp:80-99 | decoding the rows again, after any number of them, gives the same events with the same ids |
| `CsvRoundTrip.WriteThenRead` | include/ultrabacktest/data/tick_decoder.hpp:40-128 | ticks written as rows under any header, with any line endings, come back as their events, in order, with ids by first appearance |
| `BinaryReading.BinaryReader.constructor` | include/ultrabacktest/data/binary_reader.hpp:26-41 | an opened reader will deliver all whole records |
| `BinaryReading.BinaryReader.Advance` | include/ultrabacktest/data/binary_reader.hpp:73-98 | the lookahead holds the next record, or none is left, for every chunk size |
| `BinaryReading.BinaryReader.ReadNext` | include/ultrabacktest/data/binary_reader.hpp:43-49 | delivers the records in order, then leaves the slot untouched |
| `BinaryReading.BinaryReader.HasNext` | include/ultrabacktest/data/binary_reader.hpp:51-53 | true exactly while a record is undelivered |
| `BinaryReading.BinaryReader.Reset` | include/ultrabacktest/data/binary_reader.hpp:55-63 | all records again |
| `ReplayEngine.Reader.ReadNext` | include/ultrabacktest/data/data_reader.hpp:22-24 | both readers keep the one contract the engine relies on |
| `ReplayEngine.Engine.Run` | include/ultrabacktest/engine/replay_engine.hpp:34-74 | for any reader, dispatches exactly what the rule skip, stop or dispatch gives, counts it, and leaves in the reader what follows the lookahead |
| `ReplayWindow.DispatchedIsFilterIff` | include/ultrabacktest/engine/replay_engine.hpp:52-57 | replay is the plain window filter if and only if no event of the window follows one that stops it |
| `ReplayWindow.SortedReplayIsFilter` | include/ultrabacktest/engine/replay_engine.hpp:52-57 | on streams in time order it is |
| `ReplayWindow.SortedReplayIsSegment` | include/ultrabacktest/engine/replay_engine.hpp:52-57 | on streams in time order the dispatched events are one unbroken part, and an event is in it if and only if its time is not before the start and not after the end, where they are set |
| `ReplayWindow.DispatchedInTime` | include/ultrabacktest/engine/replay_engine.hpp:52-57 | in any order, every dispatched event has such a time |
| `ReplayWindow.UnsortedReplayLoses` | include/ultrabacktest/engine/replay_engine.hpp:55-57 | out of order an event of the window is lost |
| `ReplayWindow.AllAccountedFor` | include/ultrabacktest/engine/replay_engine.hpp:48-72 | with k the first stopping event: dispatched are exactly the window's events before k, lost are k and the one after, and the reader keeps everything behind them |
| `ReplayWindow.NothingRepeated` | include/ultrabacktest/engine/replay_engine.hpp:67-72 | what is left in the reader is an end part of the stream, and everything dispatched lies before it |
| `ReplayEngine.ReplayCsv` | include/ultrabacktest/engine/replay_engine.hpp:34-74 | a whole CSV replay is a function of content, known names and window: chunking and capacity do not show |
| `ReplayEngine.ReplayBinary` | include/ultrabacktest/engine/replay_engine.hpp:34-74 | likewise for binary files and the chunk size |

## Left out

- PortfolioEngine.Portfolio.OnExecution: requires a symbol below 256, the size of the position array, and no fill of quantity zero on a flat position, for which the program divides by zero; whether an execution report is a fill is decided by UltraLOB, which is not part of this model.
- RiskGate.RiskEngine.CheckPreTrade: computes on unbounded integers, exact within the range that `ExpectedFitsIff` gives; a request for a symbol of 256 or above reads past the array and is not modelled.
- CashSafety.CashFits: sufficient only; the exact condition is proved for fees that are not negative (`CashSafeIff`).
- Performance.PerformanceAnalytics.Update: does not model rounding of `double`; an infinite percentage is kept, other infinities and NaN are not.
- The matching engine, the order book, price conversion and number parsing: UltraLOB and library code; parsing is any function, conversion to `double` is any function.
- `ExchangeSimulator`, `EventDispatcher`, the strategy base class, event factories and names of enumerations: forwarding and one-branch facts.
- Order modification: it bypasses the risk check, so runs of the desk consist of submissions, fills, cancels, marks and kills. The strategy's `send_order` does not call the check either; the desk puts it in front.
- Opening and closing files, including a failed re-open: a reader is modelled from a successful open on. A line is returned as a value, not as a view into the buffer that the next read invalidates; the buffer itself is a sequence the methods reassign.
- `annualized_return` and the square root in `sharpe_ratio`.
- Slippage, replay speed, latency and other configuration the modelled code does not read; memory layout and prefetching; Python bindings, reports and benchmarks.
