# FXcore: the trading core, modelled and verified

FXcore is a trading-agent back end written in Go.  This project models its stateful cores in Dafny
and proves what they guarantee, over every input, every run and every interleaving.  `dafny verify
dfyconfig.toml` checks all of it.

Where the code changes state step by step, the model does so too (classes, arrays, loops), and each
such method is tied to a specification function or a step system; the laws are proved about those.
Where a law that the code or its comments suggest does not hold, the code is kept as it is, a
concrete input shows the failure, and the exact condition under which the law holds is proved.

## Structure

| area | modules |
|---|---|
| sliding-window limiter | `Limiter` (arrays, table, one call), `LimiterTheorems`, `LimiterGuarantees` |
| token store, nonce cache | `Tokens`, `Nonces` |
| backtest accounting | `Ledger`, `LedgerTheorems`, `Metrics` |
| backtest run | `Replay` (step system), `ReplayTheorems`, `ReplayEffects` (what steps do to the book), `BacktestRun` (the class), `RunTable` (many runs) |
| technical indicators | `Smoothing`, `Macd`, `Rsi`, `Atr`, `Bollinger` |
| live bookkeeping | `Trading` (store, sync, execution), `TradingTheorems`, `TradingEffects` (the money), `Races`, `EarlySync`, `Risk`, `Cycles` |
| debate | `Debate` (step system), `DebateRun` (the class), `DebateStore`, `Vote` |
| lot sizes | `Formats`, `FineSteps` (formatting twice, every step) |
| model output | `Parse`, `Decisions` |
| context budget and wire | `ContextGuard` |

## Where the code and its surroundings disagree

- The limiter's over-capacity sweep applies the caller's window to all keys, so a key with a longer
  window can be admitted too often and too early (`LimiterGuarantees.OverfullRun`,
  `LimiterGuarantees.EarlyRun`).
- Opening takes the whole notional from the cash and closing returns it divided by the leverage;
  liquidation returns nothing (`LedgerTheorems.CashIdentity`, `LedgerTheorems.FlatCashMatchesEquity`).
- A pause that the loop sees within a window ends the loop, and a resume does not start it again
  (`ReplayTheorems.PauseKillsTheLoopIff`, `ReplayTheorems.PauseIsSafeIff`); a stop can be overwritten
  by the end of the run (`ReplayTheorems.StopIsFinalIff`); a resume does not look for another running
  run (`RunTable.ResumeBreaksTheRule`).
- The total of cycles is a floor, so progress can read 100 one window early
  (`ReplayTheorems.ProgressReadsFullEarly`).  Openings count as trades in the win rate, which
  therefore never exceeds one half (`Metrics.WinRateAtMostHalf`).
- Fills without a trade id are booked again at every sync (`TradingTheorems.SyncIdempotentIff`), and
  a back-filled position is closed by the next fill of its own direction
  (`TradingTheorems.BackfillIsClosedByTheSameDirection`).
- The margin check uses the requested leverage, the clamp comes after it (`Risk.MarginFitsIff`).
- A tie in the debate is settled by map order, not by `wait` as the comment at
  internal/debate/debate_loop.go:183 says (`Vote.EveryBestCanWin`, `Vote.DeterminedIff`).  A
  cancellation during the last speech leaves the session in voting until somebody cancels again, one
  during the last ballot is overwritten by completed (`Debate.CancelIsFinalIff`).
- Rounding to 1e-8 after flooring can exceed the quantity when the step is not a multiple of 1e-8
  (`Formats.NeverExceedsIff`), and flooring again can change the result
  (`FineSteps.IdempotentIff`).
- Two closings that list the same position before either closes it are both counted
  (`Races.MirrorIffNoRace`).  A sync before the engine's own order is recorded books its fill again:
  it re-opens what was closed, closes a second position, or closes the other side
  (`EarlySync.EarlySyncIff`, `EarlySync.BookedTwice`).  A back-fill between filter and execution
  exceeds the maximum of positions (`Cycles.BackfillExceedsMaximum`).
- A cancellation that read the stored status before a debate completed can still cancel the
  completed debate (`DebateStore.LateCancelIff`).
- RSI of flat closes is 100 in both directions (`Rsi.RsiMirrorFailsOnFlat`).

## Conventions

Prices, quantities and weights are `real`.  Every critical section and every loop section between
two of them is one atomic step.  `Trading`, `TradingTheorems`, `TradingEffects` and `Risk` take a whole execution,
closing or sync of one fill as one; `Races` takes closings apart, `EarlySync` executions, and `Cycles`
whatever inserts or closes a position.  `Debate` takes a status write and its store update as one;
`DebateStore` takes them apart.  Clocks never run backwards and are read once per call.  Map
iteration is arbitrary.  Random identifiers, the market data, the exchange's answers, the models'
answers and the JSON decoder are arbitrary parameters.  `math.Sqrt` is a non-negative number with the
given square, and the rounded-up decimal logarithm is the exponent between whose powers of ten the
number lies.  Strings are sequences of code points; where the code counts bytes the model counts
those of UTF-8.

## Model

| member | source | states |
|---|---|---|
| LimiterTheorems.RefinesIffOneWindow | internal/pkg/cache/cache.go:228-262 | the limiter that prunes a key in place and sweeps the whole table over capacity answers every chronological run of calls exactly like one that remembers every admission forever, if and only if all keys share one window |
| LimiterTheorems.KeyRefinesIffShortest | internal/pkg/cache/cache.go:228-262 | the calls of one key are answered in every run as if nothing were ever forgotten, if and only if no other key has a shorter window |
| LimiterTheorems.SweptByShorterWindow | internal/pkg/cache/cache.go:236-243 | a concrete run on which a key is answered wrongly whenever another key has a shorter window: the sweep uses the caller's window on every key |
| LimiterGuarantees.WindowIsNeverOverfull | internal/pkg/cache/cache.go:228-262 | in every run no closed interval of window length holds more than `limit` admissions of a key, and a call is refused if and only if exactly `limit` admissions lie in the window that ends at it: this holds if and only if no other key has a shorter window |
| LimiterGuarantees.OverfullRun | internal/pkg/cache/cache.go:236-243 | for a key with a longer window than another: a run that admits it `limit` + 1 times within one window |
| LimiterGuarantees.RetryAfterIsExact | internal/pkg/cache/cache.go:252-258 | in every run a refused key that comes back after s whole seconds, while only other keys call, is admitted if and only if s reaches the announced Retry-After: this holds if and only if no other key has a shorter window |
| LimiterGuarantees.EarlyRun | internal/pkg/cache/cache.go:236-258 | for such a key: a run in which it is refused with a Retry-After of at least a second and admitted at once |
| LimiterGuarantees.RetryIsExact | internal/pkg/cache/cache.go:252-258 | for one log: the announced number is the least sufficient one and the clamp to 1 never changes it |
| LimiterGuarantees.LogGuarantee | internal/pkg/cache/cache.go:246-261 | both halves of the window guarantee for the complete log of one key, from the spacing that every admission keeps |
| Limiter.CompactInPlace | internal/pkg/cache/cache.go:245-251 | the in-place filter on the shared backing array leaves exactly the timestamps not older than the start, in order |
| Limiter.Append | internal/pkg/cache/cache.go:260 | append on the compacted slice: the kept timestamps followed by the new one, in place or in a fresh array |
| Limiter.MemLimiter.Purge | internal/pkg/cache/cache.go:236-243 | the sweep drops exactly the keys whose newest timestamp is stale and touches no other entry, in whatever order the map yields them |
| Limiter.MemLimiter.Allow | internal/pkg/cache/cache.go:228-269 | one call changes the table and answers exactly as one step of the pruning specification |
| Tokens.PruningIsInvisible | internal/pkg/cache/cache.go:68-116 | over any run of set, get, delete and rotate, lazy deletion and the over-capacity sweep change no answer |
| Tokens.OneTokenPerLogin | internal/pkg/cache/cache.go:130-169 | with fresh new tokens each login has at most one stored token after any number of rotations, and it still belongs to the user who logged in |
| Tokens.ExactlyOneRotation | internal/pkg/cache/cache.go:149-169 | of any interleaved rotations of one stored token exactly one succeeds if the first attempt comes before expiry, and none otherwise |
| Tokens.GoneStaysGone | internal/pkg/cache/cache.go:87-116 | a token that is not stored is refused by every later use until it is set anew |
| Tokens.RevokedForever | internal/pkg/cache/cache.go:108-169 | a rotated-out or deleted token is refused by every later use unless set anew |
| Tokens.AnswersAreLogins | internal/pkg/cache/cache.go:87-169 | over any run with fresh tokens: a use that is answered with a user is answered with the user of the Set that the token descends from, through any number of rotations |
| Tokens.StoredAnswers | internal/pkg/cache/cache.go:87-169 | a token stored for a user until some time and not introduced again: a use is answered with that user if and only if it comes by that time and before any rotation attempt and any deletion; otherwise it is refused |
| Tokens.SetAnswers | internal/pkg/cache/cache.go:68-106 | after Set(t, u, ttl) at a time: a later use is answered u up to ttl later unless rotated or deleted before, and refused otherwise |
| Tokens.RotateAnswers | internal/pkg/cache/cache.go:130-169 | after a rotation answered u: the new token is answered u for its own lifetime in the same way, and the old one is refused |
| Tokens.KvTokenStore.Set | internal/pkg/cache/cache.go:68-85 | state after Set, with the sweep, is one specification step |
| Tokens.KvTokenStore.Get | internal/pkg/cache/cache.go:87-106 | answer and state after Get, with lazy deletion, are one specification step |
| Tokens.KvTokenStore.Del | internal/pkg/cache/cache.go:108-116 | state after Del is one specification step |
| Tokens.KvTokenStore.Rotate | internal/pkg/cache/cache.go:130-169 | answer and state after Rotate are one specification step: check, delete and insert in one critical section |
| Nonces.RefusesIffReplayed | internal/pkg/cache/cache.go:297-313 | after any run, the pruned table refuses exactly the keys of which an accepted use is less than its ttl old |
| Nonces.AcceptedUsesAreSpaced | internal/pkg/cache/cache.go:297-313 | two accepted uses of one nonce are at least the first one's ttl apart |
| Nonces.AcceptedIffUnused | internal/pkg/cache/cache.go:297-313 | in any run a call is accepted if and only if every earlier accepted call with the same key is at least its own ttl old |
| Nonces.NonceCache.Add | internal/pkg/cache/cache.go:297-313 | answer and table after one Add, with the unconditional purge loop over the map |
| Ledger.ExecuteKeepsBooks | internal/backtest/replay.go:162-262 | executing any decisions keeps the book equal to the fold of its trade log: equity, cash, position map and legality of the log |
| Ledger.LiquidateAllKeepsBooks | internal/backtest/replay.go:265-291 | liquidation in any order keeps the book equal to its log and removes exactly the named positions |
| LedgerTheorems.LogAlternates | internal/backtest/replay.go:162-291 | per symbol the log alternates opening and end; every end matches its opening in quantity, entry and side; the position map is exactly the unmatched openings |
| LedgerTheorems.CashIdentity | internal/backtest/replay.go:200-291 | at any leverage, cash + notional held + cash withheld by leveraged closings and liquidations = equity + all slippage + closing fees |
| LedgerTheorems.FlatCashMatchesEquity | internal/backtest/replay.go:216-252 | a flat run that was never liquidated has exactly slippage and closing fees more in cash than in equity if and only if its leverage is 1 or it never closed a position |
| Metrics.OnePassIsAllPairs | internal/backtest/engine.go:521-536 | on non-negative equities the running-peak pass yields the largest drop over all ordered pairs |
| Metrics.MaxDrawdown | internal/backtest/engine.go:521-536 | the loop over the stored points computes that pass |
| Metrics.TallyTrades | internal/backtest/engine.go:483-502 | the loop over the trades computes wins, losses and gross sums of the specification |
| Metrics.ComputeReport | internal/backtest/engine.go:483-538 | the metrics are those of the specification, with the guards against division by zero |
| Metrics.ReturnIsNetProfit | internal/backtest/engine.go:474-538 | for a run's own book the reported return is total profit net of fees and slippage |
| Metrics.WinRateAtMostHalf | internal/backtest/engine.go:483-517 | since openings are counted as trades, the reported win rate of a run lies in [0, 1/2] |
| Metrics.DrawdownIs | internal/backtest/engine.go:521-536 | the drawdown is at most a bound if and only if no value lies more than that percentage of an earlier positive value below it |
| Metrics.ReportIs | internal/backtest/engine.go:483-517 | win rate, average win and average loss are ratios over the sets of winning and losing trades, of two sums that make up the total profit; the profit factor is the ratio of these sums, 0 without losers |
| ReplayTheorems.BooksBalance | internal/backtest/replay.go:18-90 | in every state that any interleaving of loop, pause, resume and stop reaches, equity, cash and positions are the fold of the trade log |
| ReplayTheorems.WindowsInOrder | internal/backtest/replay.go:18-90 | snapshot k carries StartTime + kS; there are never more than ceil(D/S) windows; a completed run replayed exactly ceil(D/S), once each, and stopped one cycle later |
| ReplayTheorems.ProgressIsMonotone | internal/backtest/engine.go:410-419 | progress never falls along any step, stays in [0, 100] and is exactly 100 on completion |
| ReplayTheorems.ProgressIs | internal/backtest/engine.go:410-419 | progress is the share of the current cycle in the whole steps of the range and one, in percent, and 100 from then on |
| ReplayTheorems.ProgressReadsFullEarly | internal/backtest/engine.go:132 | because the total uses floor division, the last window already reads 100 while being replayed exactly when the step does not divide the range |
| ReplayTheorems.UninterruptedRunEnds | internal/backtest/replay.go:18-90 | an uninterrupted run ends completed or liquidated within a bound on its steps given by range and symbols |
| ReplayTheorems.LoopProgress | internal/backtest/replay.go:40-89 | each uninterrupted loop step strictly decreases the measure |
| ReplayTheorems.GoneIsForever | internal/backtest/engine.go:164-216 | once the loop goroutine is gone, no run of events, resumes included, moves book, cycle or window again, and the run never completes |
| ReplayTheorems.PauseKillsTheLoopIff | internal/backtest/replay.go:42-58 | for any number of loop steps between pause and resume: the run says running but has no loop if and only if the loop stood before a symbol and made at least one step, or had just begun a window and made at least two |
| ReplayTheorems.PauseIsSafeIff | internal/backtest/replay.go:42-58 | a pause can be undone by a resume however long the loop runs in between, if and only if it does not fall between the beginning of a window and its last symbol |
| ReplayTheorems.EverDeadIff | internal/backtest/replay.go:42-58 | over any history of steps, pauses, resumes and stops: the run is ever shown as running without a loop if and only if the loop took its check before a symbol while paused and a resume followed before any stop |
| ReplayTheorems.StopIsFinalIff | internal/backtest/replay.go:322-331 | a stop stays stopped over every continuation if and only if the loop is not already past its last status check and about to finish the run |
| ReplayTheorems.CompletedIsSolvent | internal/backtest/engine.go:480-488 | a completed run was never liquidated and ends above zero, so the liquidated flag among the metrics is never set |
| ReplayTheorems.CompletedRunDrawdown | internal/backtest/replay.go:294-319 | a completed run has non-negative equities; its reported drawdown, also when a run without trades is reported early, is the largest over all pairs and at most the largest one recorded on the way |
| ReplayEffects.PriceIs | internal/backtest/replay.go:352-369 | the fill price is the close, or the close before for an opening under next-open, the mean of high, low and close, or that of high and low, and 0 without bars |
| ReplayEffects.OpeningIsExecuted | internal/backtest/replay.go:162-229 | a step on one opening of a symbol that is not held, at a positive price: within the cash, the log grows by exactly one trade of that symbol, long if and only if it opens a long, at the asked quantity and the price of the policy; position, cash, equity, fee and slippage follow; beyond the cash nothing changes |
| ReplayEffects.ClosingIsExecuted | internal/backtest/replay.go:162-262 | a step on one closing of the held side, at a positive price: the symbol leaves the positions and the log grows by exactly one closing trade with quantity times the move in the direction of the side; cash, equity and peak follow |
| ReplayEffects.NothingIsExecuted | internal/backtest/replay.go:162-189 | a step changes nothing for an opening of a held symbol, a closing of the wrong side, a decision for another symbol, hold, wait, or a failed feed |
| ReplayEffects.FeedSplits | internal/backtest/replay.go:162-189 | a list of decisions has the effect of its parts one after the other, so the laws for one decision cover every list |
| ReplayEffects.OthersStay | internal/backtest/replay.go:162-262 | whatever is decided for a symbol, the positions of all other symbols stay and the log only grows |
| ReplayEffects.SnapshotIs | internal/backtest/replay.go:294-319 | the step after the last symbol records one point: equity plus 1% of the notional held, cash, and the fall from the peak before it |
| ReplayEffects.GuardLiquidates | internal/backtest/replay.go:72-88 | peak above 105% of the initial balance and equity at most 60% of the peak: every position gets exactly one exit at 95% of its entry with the loss or gain of its side, nothing stays open, and equity moves by what the exits say; otherwise the book stays |
| ReplayEffects.ConsultedOnce | internal/backtest/replay.go:48-60 | in an uninterrupted replay that has ended, every symbol of every window with a point was consulted, while running, at exactly one step |
| ReplayEffects.OpeningReachesTheLog | internal/backtest/replay.go:48-229 | every opening that was delivered for a window and could be executed is in the final log, directly behind the trades before it, with side, quantity and policy price |
| ReplayEffects.ClosingReachesTheLog | internal/backtest/replay.go:48-262 | every matching closing that was delivered for a window is in the final log with the profit of its position |
| BacktestRun.Backtest.Open | internal/backtest/replay.go:200-229 | the new book is the specified opening of the old one |
| BacktestRun.Backtest.Close | internal/backtest/replay.go:232-262 | the new book is the specified closing of the old one |
| BacktestRun.Backtest.ExecuteActions | internal/backtest/replay.go:162-189 | the loop over the decisions is the specified fold, with the checks for held sides |
| BacktestRun.Backtest.LiquidateEverything | internal/backtest/replay.go:265-291 | every position is liquidated, in the order in which the map yields them |
| BacktestRun.Backtest.Unrealized | internal/backtest/replay.go:295-306 | the marked gain is the sum over all positions, in whatever map order |
| BacktestRun.Backtest.TakeSnapshot | internal/backtest/replay.go:294-319 | the point, the peak and the recorded drawdown after a snapshot |
| BacktestRun.Backtest.PauseRun | internal/backtest/engine.go:164-179 | new status and answer are one step of the run |
| BacktestRun.Backtest.ResumeRun | internal/backtest/engine.go:182-197 | new status and answer are one step of the run |
| BacktestRun.Backtest.StopRun | internal/backtest/engine.go:200-216 | new status and answer are one step of the run |
| BacktestRun.Backtest.ReadMetrics | internal/backtest/engine.go:474-538 | metrics are shown for completed runs only: the report with final equity and liquidated flag |
| BacktestRun.Backtest.RunLoop | internal/backtest/replay.go:18-90 | the nested loops of an uninterrupted run take the steps of the step system, each fed what the market delivers for that cycle and symbol, and end completed or liquidated; what each step does to the book is in the ReplayEffects rows |
| BacktestRun.Backtest.ReplayWindow | internal/backtest/replay.go:48-70 | all symbols of one window, each with its own feed, and the snapshot, as steps of the step system |
| BacktestRun.Backtest.CheckGuards | internal/backtest/replay.go:72-88 | liquidation guard, depleted account, or on to the next window |
| RunTable.StepExclusiveIff | internal/backtest/engine.go:115-122 | every operation keeps one running run per user, except an accepted resume while another run of that user is running |
| RunTable.AlwaysExclusiveIff | internal/backtest/engine.go:182-197 | over a whole history the rule holds always if and only if every accepted resume found no other running run of that user |
| RunTable.ResumeBreaksTheRule | internal/backtest/engine.go:182-197 | start, pause, start another, resume: two running runs |
| RunTable.ExclusiveIs | internal/backtest/engine.go:115-122 | the rule in terms of users: two running runs have known and different owners |
| RunTable.StartAcceptedIff | internal/backtest/engine.go:115-122 | a start is accepted if and only if the caller and the owner of every running run are known and different |
| RunTable.StepTouchesOne | internal/backtest/engine.go:115-253 | an operation touches its own run only, never its owner, and moves its status along the allowed edges; a delete takes away exactly what is neither running nor paused |
| RunTable.Engine.Start | internal/backtest/engine.go:115-160 | the search over the map and the insertion are one specification step, with its refusal |
| RunTable.Engine.Resume | internal/backtest/engine.go:182-197 | new table and answer are one specification step |
| RunTable.Engine.Delete | internal/backtest/engine.go:233-253 | new table and answer are one specification step |
| Smoothing.SmoothSeries | internal/kernel/indicators.go:16-33 | one pass over the values computes the whole smoothed series |
| Smoothing.WilderSeries | internal/kernel/indicators.go:84-105 | the loops of sum and Wilder update compute the smoothed series with weight 1/p |
| Smoothing.PassIsSmooth | internal/kernel/indicators.go:16-42 | element i of one pass is what recomputing the prefix gives |
| Smoothing.SmoothMix | internal/kernel/indicators.go:16-33 | smoothing is linear in its input |
| Smoothing.SmoothWithin | internal/kernel/indicators.go:16-33 | a smoothed value stays between the least and greatest value seen |
| Smoothing.SmoothMoves | internal/kernel/indicators.go:16-33 | on exactly the first p values the result is their mean; each further value moves it by the given fraction of its distance |
| Smoothing.WilderMoves | internal/kernel/indicators.go:84-105 | Wilder's average starts at the mean and moves by a p-th of its distance to each value |
| Macd.EmaSeries | internal/kernel/indicators.go:16-33 | the EMA series is that pass with weight 2/(period+1), empty when there are too few closes |
| Macd.EmaLast | internal/kernel/indicators.go:36-42 | succeeds exactly with `period` closes or more and returns the EMA of all of them |
| Macd.ComputeMacd | internal/kernel/indicators.go:46-71 | the quadratic recomputation succeeds exactly on 34 closes or more and returns DIF, its 9-period EMA and twice their difference |
| Macd.DifsFromTwoPasses | internal/kernel/indicators.go:50-62 | the recomputed DIF series is the difference of two aligned single EMA passes, and DIF is its last element |
| Macd.MacdIsLinear | internal/kernel/indicators.go:46-71 | MACD of a combination of two series is that combination of their MACDs in all three components |
| Macd.MacdShiftScale | internal/kernel/indicators.go:46-71 | adding a constant to all closes leaves MACD unchanged and scaling scales it |
| Macd.EmaWithin | internal/kernel/indicators.go:16-33 | an EMA stays within the minimum and maximum of its closes |
| Macd.EmaMoves | internal/kernel/indicators.go:16-33 | the EMA of exactly `period` closes is their mean; each further close moves it by 2/(period + 1) of its distance |
| Macd.MacdMoves | internal/kernel/indicators.go:46-71 | one more close: DIF is EMA 12 less EMA 26, DEA moves by two tenths of its distance to DIF, the histogram is twice the difference |
| Macd.FirstDea | internal/kernel/indicators.go:46-71 | after 34 closes DEA is the mean of the nine DIFs |
| Rsi.GainsAndLosses | internal/kernel/indicators.go:79-92 | the loop over the changes yields gains and losses |
| Rsi.RsiSeries | internal/kernel/indicators.go:74-106 | length n - period, and each value is the RSI of the prefix that ends there |
| Rsi.RsiInRange | internal/kernel/indicators.go:108-114 | every RSI lies in [0, 100] |
| Rsi.RsiScaleInvariant | internal/kernel/indicators.go:74-114 | positive scaling of the closes leaves RSI unchanged |
| Rsi.RsiMirrorIff | internal/kernel/indicators.go:108-114 | negating the closes maps RSI to 100 - RSI if and only if the smoothed averages are not both zero |
| Rsi.RsiMirrorFailsOnFlat | internal/kernel/indicators.go:108-114 | the mirror law fails exactly on closes that stand still: all of them, or for period 1 the last two |
| Rsi.FirstRsi | internal/kernel/indicators.go:74-114 | the first RSI is the sum of the rises in percent of the whole way of the closes, with both sums given by the way and the net change; 100 if they stood still |
| Rsi.RsiMoves | internal/kernel/indicators.go:95-114 | one more close moves the average rise and the average fall by a period-th of their distances, and RSI is the average rise in percent of both |
| Atr.AtrSeries | internal/kernel/indicators.go:153-179 | length n - period, and each value is the ATR of the prefix that ends there |
| Atr.AtrWithin | internal/kernel/indicators.go:153-179 | every ATR is non-negative and lies between the least and greatest true range used so far |
| Atr.TrueRangeSpans | internal/kernel/indicators.go:158-164 | every true range is the greatest of high - low and the distances of high and low from the previous close; for low <= high it is the length of the least interval that holds all three |
| Atr.AtrOfOneBar | internal/kernel/indicators.go:153-179 | the same of the ATR with period 1 |
| Bollinger.Boll | internal/kernel/indicators.go:127-149 | succeeds exactly with `period` closes or more; lower <= mid <= upper, both half-widths equal, their square four times the population variance |
| Bollinger.BandIsUnique | internal/kernel/indicators.go:127-149 | that description determines the band |
| Bollinger.FewLieOutside | internal/kernel/indicators.go:127-149 | fewer than a quarter of the closes of any window lie strictly outside its band, or none |
| Bollinger.BandIs | internal/kernel/indicators.go:127-149 | the middle is the mean, and the squared half-width times the size of the window is four times the sum of squares less the middle times the sum |
| TradingTheorems.MetricsMirrorPositions | internal/trader/engine/engine.go:349-447 | over any sequential run of execute, closePosition and orderSync: TradeCount = closed positions, TotalPnL = sum of their PnL, WinRate = wins / closed and within [0, 1], for every trader; and CLOSED status coincides with a set closing time |
| TradingTheorems.HistoryIsPermanent | internal/store/store.go:700-719 | over any run no position disappears and a closed one never changes again |
| TradingTheorems.OnlyFirstsCount | internal/trader/engine/ordersync.go:38-89 | within a batch only first occurrences of trade ids have an effect |
| TradingTheorems.BatchesDoNotMatter | internal/trader/engine/ordersync.go:38-89 | any two cuttings into overlapping batches with the same first occurrences in the same order end in the same store |
| TradingTheorems.SyncIdempotentIff | internal/trader/engine/ordersync.go:38-89 | syncing a batch again changes nothing if and only if all its fills carry trade ids |
| TradingTheorems.IdsStayUnique | internal/store/order_fill_store.go:42-58 | no run stores two orders with one non-empty order id, or two fills with one non-empty trade id |
| TradingTheorems.OneBuilderRunPerOrder | internal/trader/engine/ordersync.go:70-86 | positionBuilder runs exactly once for each order id that a batch brings and that was not recorded, and never for a recorded one |
| TradingTheorems.RecordedOrdersAreNotRebuilt | internal/trader/engine/ordersync.go:70-86 | fills of recorded orders never touch positions or metrics |
| TradingTheorems.ExecutedOrderIsRecorded | internal/trader/engine/engine.go:398-415 | when execute returns, its order is on record, so a later sync does not book it again |
| TradingTheorems.BackfillIsClosedByTheSameDirection | internal/trader/engine/ordersync.go:96-134 | the back-filled position gets the side its own fill would close: the next fill of its symbol closes it if and only if it has the same direction and at least that quantity within 1e-9, and otherwise changes nothing |
| TradingEffects.RoundTrip | internal/trader/engine/engine.go:349-447 | from a state without an open position of the symbol, opening n at p and closing at q adds exactly n * (q - p) for a long and n * (p - q) for a short to the trader's profit, as one trade and one closed row, and leaves all older rows and other traders alone |
| TradingEffects.ClosingBooks | internal/trader/engine/engine.go:419-447 | executing a closing, of either direction, closes the newest open position of the symbol and books quantity times the move in the direction of its side, once |
| TradingEffects.WinsIff | internal/trader/engine/engine.go:432-446 | a closed position of positive quantity wins if and only if the price moved the way of its side |
| TradingEffects.NothingToBook | internal/trader/engine/engine.go:419-431 | a closing without an open position of the symbol changes neither positions nor metrics |
| TradingEffects.RateAfterClosing | internal/trader/engine/engine.go:530-545 | after a closing the win rate is the share of rows with a positive profit among the closed rows of the trader, the new one included |
| TradingEffects.FillBooks | internal/trader/engine/ordersync.go:93-117 | a sale closes the newest long position of its symbol, a purchase the newest short one, at the fill's own profit, if it is no smaller by more than 1e-9; a smaller one changes nothing |
| TradingEffects.FillOpens | internal/trader/engine/ordersync.go:118-142 | without such a position a fill changes nothing if another one of the symbol is open, and otherwise becomes a position, long for a sale and short for a purchase |
| Races.MirrorIffNoRace | internal/trader/engine/engine.go:419-447 | with every critical section a step of its own and closings of cycle and sync interleaved: when every closing is over, the metrics mirror the positions if and only if no position was picked by two closings |
| Races.RacesAreCounted | internal/trader/engine/engine.go:419-447 | then the trade count exceeds the closed positions by exactly the closings that found theirs closed already, the profit by theirs, and the win rate is right |
| Races.SerialIsSettle | internal/trader/engine/engine.go:419-447 | the three sections of one closing without another in between are the closing in one step |
| Races.Reachable | internal/store/store.go:700-719 | in every interleaving a position is closed by exactly one accepted closing, and the metrics lag and lead by exactly what is unwritten and refused |
| EarlySync.SyncChangesIff | internal/trader/engine/ordersync.go:93-134 | synchronising a new fill whose order is not on record leaves positions and metrics alone if and only if the guard of positionBuilder holds: a matching position larger than the fill, or none matching but one of the symbol |
| EarlySync.EarlySyncIff | internal/trader/engine/engine.go:378-415 | for all four actions: the fill of an execution, synchronised between the position change and AddOrder, changes no position if and only if, for an opening, no position of the side it would close is as small as the fill, and for a closing, the positions that remain meet that guard; after AddOrder it never changes one |
| EarlySync.OneOrderClosesTwo | internal/trader/engine/engine.go:391-415 | if a second position of the fill's side and no larger remains, one closing order synchronised early closes two positions and counts two trades |
| EarlySync.OpeningCloses | internal/trader/engine/engine.go:378-415 | an opening synchronised early closes the newest position of the other side that is no larger |
| EarlySync.BookedTwice | internal/trader/engine/engine.go:378-415 | two inputs: two longs and one order to close, one long and one order to open a short |
| EarlySync.ListAfterClosing | internal/trader/engine/engine.go:419-431 | closing by symbol takes exactly the newest position of the symbol off the list of open ones |
| Trading.Store.InsertFill | internal/store/order_fill_store.go:155-170 | append unless the non-empty trade id is stored, with the answer |
| Trading.Store.InsertOrder | internal/store/order_fill_store.go:42-58 | append unless the non-empty order id is stored, with the answer |
| Trading.Store.InsertPosition | internal/store/store.go:594-616 | an open position is appended |
| Trading.Store.CloseById | internal/store/store.go:700-719 | the open position with this id is closed with the PnL, once; otherwise nothing changes |
| Trading.Store.ListPositionsByTrader | internal/store/store.go:724-746 | exactly the open positions of the trader, in order |
| Trading.Store.ComputeWinRate | internal/trader/engine/engine.go:530-545 | wins over closed positions of the trader, 0 without any |
| Trading.Store.SettlePosition | internal/trader/engine/engine.go:430-446 | closing and metric update of an uncontended closing, the two lock sections one after the other |
| Trading.FindMatch | internal/trader/engine/ordersync.go:93-107 | the first open position that matches symbol and side |
| Trading.ClosePositionOf | internal/trader/engine/engine.go:419-447 | the store after closing a position by symbol |
| Trading.PositionBuilder | internal/trader/engine/ordersync.go:93-142 | the store after building from one fill: close the matching position or back-fill one |
| Trading.OrderSync | internal/trader/engine/ordersync.go:38-89 | the store after a batch is the specified fold over its fills |
| Trading.ExecuteDecision | internal/trader/engine/engine.go:349-416 | the store after executing one decision with the exchange's answer |
| Risk.KeptInOrder | internal/trader/engine/risk.go:41-113 | the filter keeps every close, hold and wait unchanged and in order, and of the openings exactly the first (MaxPositions - open) admissible ones, in order, with clamped leverage |
| Risk.KeptOpensAreSafe | internal/trader/engine/risk.go:62-109 | every kept opening respects minimum size, value ratio and leverage cap, and stems from a requested one whose margin fits at the requested leverage |
| Risk.AdmissibleIff | internal/trader/engine/risk.go:17-94 | an opening with quantity and price passes if and only if it is worth at least 60 for BTC and ETH in any letter case and 12 otherwise, at most the configured multiple (or once) the balance, and 1.01 of it plus 0.001 of it per unit of leverage is at most the usable balance times the leverage |
| Risk.ClampIs | internal/trader/engine/risk.go:96-107 | a leverage whose whole part exceeds a positive cap becomes the cap, that of BTC and ETH or that of the others; any other stays |
| Risk.FilterIs | internal/trader/engine/risk.go:41-113 | closings, holds and waits always pass as they are; an opening of either side that passes stems from an admissible one, clamped |
| Risk.KeptWithinMaximum | internal/trader/engine/risk.go:41-60 | beside the open positions no opening is kept beyond the configured maximum, or three |
| Risk.MarginFitsIff | internal/trader/engine/risk.go:87-107 | an opening that passes keeps within the margin limit at the leverage actually used, whatever the balance, if and only if it was not clamped or the limit covers the whole value ratio at the capped leverage |
| Risk.PassesChecks | internal/trader/engine/risk.go:62-94 | size, ratio and margin checks with their guards decide admissibility |
| Risk.FilterByRisk | internal/trader/engine/risk.go:41-113 | the loop with its counter computes the reference selection |
| Risk.CloseFirst | internal/trader/engine/engine.go:223-245 | the two lists are the closings and the rest, each in order |
| Risk.CloseFirstPermutes | internal/trader/engine/engine.go:223-245 | reordering drops and invents nothing |
| Risk.ClosingsComeFirst | internal/trader/engine/engine.go:223-245 | all closings come before everything else |
| Risk.OpenCountStaysBounded | internal/trader/engine/engine.go:223-245 | filtered, reordered and executed with any exchange answers and no sync in between, the number of open positions never exceeds max(MaxPositions, initial count) at any point of the cycle |
| Cycles.OpenCountWithSync | internal/trader/engine/engine.go:71-86 | at any point of a cycle, with the critical sections of sync, other closings and other traders in any order in between: at most max(MaxPositions, count seen by the filter) plus the back-fills so far |
| Cycles.OpenCountIs | internal/store/store.go:594-616 | in any order of sections the open positions are those at the start plus the opened and the back-filled, less those closed |
| Cycles.BackfillExceedsMaximum | internal/trader/engine/ordersync.go:118-141 | with a maximum of one, a back-fill between filter and execution of an admissible opening makes two open positions |
| Cycles.ExecutionIsSection | internal/trader/engine/engine.go:378-399 | an execution changes positions by at most one section: the insertion of its opening or one closing |
| Cycles.BuilderIsSection | internal/trader/engine/ordersync.go:93-141 | a builder run changes positions by at most one section: one closing or one back-fill |
| Risk.MaxDrawdownGuard | internal/trader/engine/risk.go:117-146 | the guard trips if and only if equity is more than 5% above the first snapshot and at least 40% below some snapshot |
| Debate.LogFollowsScript | internal/debate/debate_loop.go:32-85 | in every reachable state the message log is a prefix of rounds x participants, complete once the status is voting or completed or a vote is cast, with votes in turn and at most one per participant |
| Debate.SpokenAt | internal/debate/debate_loop.go:33-62 | message j is the turn of participant j mod n in round j / n + 1: the log is in lexicographic order without gaps |
| Debate.Reachable | internal/debate/debate_loop.go:17-99 | status, round, messages and votes fit the position of the loop in every interleaving of loop, start and cancel |
| Debate.CompletedIsFinal | internal/debate/engine.go:186-216 | with each status write and its store update as one section, a completed debate never changes again |
| DebateStore.LateCancelIff | internal/debate/engine.go:337-370 | with the two apart: exactly which cancellations that overlap the completion are accepted, and which leave the completed debate cancelled in the store and in the session |
| Debate.CancelIsFinalIff | internal/debate/engine.go:204-227 | after an accepted cancellation, whatever else is called, the loop ends within five of its steps; completed if and only if it was past the last ballot check, voting if and only if it was past the last speaker check and nobody cancels again while voting, cancelled otherwise |
| DebateRun.Run.StartDebate | internal/debate/engine.go:186-200 | only a pending session starts |
| DebateRun.Run.CancelDebate | internal/debate/engine.go:212-226 | only a running or voting session is cancelled, with its context |
| DebateRun.Run.DebateLoop | internal/debate/debate_loop.go:17-110 | the nested loops take the steps of the step system for any timing of cancellations; if none comes the debate completes with the full log, exactly the ballots cast, and an outcome of maximal weight |
| DebateRun.Run.Rounds | internal/debate/debate_loop.go:33-63 | all rounds, or an early end on cancellation |
| DebateRun.Run.TakeTurns | internal/debate/debate_loop.go:40-61 | all turns of a round, or an early end on cancellation |
| DebateRun.Run.TakeVotes | internal/debate/debate_loop.go:68-91 | exactly the ballots that do not fail, in turn |
| DebateRun.CollectedIs | internal/debate/debate_loop.go:68-91 | a vote is counted exactly for every participant whose ballot succeeds, with that ballot, in the order of the participants |
| DebateRun.Run.Conclude | internal/debate/debate_loop.go:94-99 | the consensus belongs to an action of maximal weight and the status becomes completed |
| Vote.Tally | internal/debate/debate_loop.go:189-207 | the accumulator map holds, per action, its total weight and its first ballot |
| Vote.Aggregate | internal/debate/debate_loop.go:184-229 | no consensus exactly without votes; otherwise the one decided by the order in which the map was ranged over, every key once |
| Vote.WinnerIsBest | internal/debate/debate_loop.go:208-212 | for every map order the winner has maximal total weight |
| Vote.EveryBestCanWin | internal/debate/debate_loop.go:208-212 | every action of maximal weight wins under some order that ranges over every key once: ties are not settled towards wait |
| Vote.DeterminedIff | internal/debate/debate_loop.go:208-229 | any two map orders decide alike if and only if the maximum is unique or only hold and wait attain it |
| Vote.VoteOrderDoesNotMatter | internal/debate/debate_loop.go:184-229 | with a unique maximum, action and confidence do not depend on the order of the votes |
| Vote.ConfidenceBounds | internal/debate/debate_loop.go:216-227 | an opening or closing consensus has confidence in (0, 100] if all inputs are at most 100, and at least the mean weight divided by the number of distinct actions |
| Vote.MostConfidenceWins | internal/debate/debate_loop.go:184-229 | with positive confidences and in every map order, some action with the greatest sum of confidences decides: an active one with that sum over the number of votes and the terms of its first ballot, hold or wait with wait at 50 |
| Vote.NoConfidenceIsFifty | internal/debate/debate_loop.go:195-198 | in every map order a ballot without positive confidence leads to the same consensus as the same ballot with 50 |
| Formats.SnapIdentityIff | internal/exchange/formats.go:74-76 | snapping leaves exactly the multiples of 1e-8 alone and moves nothing by more than 5e-9 |
| Formats.BinanceIsFloor | internal/exchange/formats.go:21-26 | for steps that are multiples of 1e-8 the result is the one multiple r of the step with r <= qty < r + step |
| Formats.BinanceBounds | internal/exchange/formats.go:21-26 | for every step the result is within half a grain of that floor |
| Formats.BinanceMonotone | internal/exchange/formats.go:21-26 | a larger quantity never gets a smaller result, for every step |
| Formats.BinanceIdempotent | internal/exchange/formats.go:21-26 | for steps that are multiples of 1e-8, formatting again changes nothing |
| Formats.NeverExceedsIff | internal/exchange/formats.go:21-26 | formatting a non-negative quantity never exceeds it if and only if the step is a multiple of 1e-8 |
| FineSteps.IdempotentIff | internal/exchange/formats.go:21-26 | for every step, formatting non-negative quantities is idempotent if and only if the step is at most 5e-9, or below 1e-8 and (n + 1) / 2n grains of 1e-8 for a whole n, or a multiple of 5e-9 |
| FineSteps.StableIs | internal/exchange/formats.go:21-26 | a formatted quantity stays exactly when its number of grains survives the way to lots and back |
| Formats.KuCoinIsNearest | internal/exchange/formats.go:61-66 | for steps that are multiples of 1e-8 the result is a multiple of the step within step/2, no farther than any other multiple |
| Formats.KuCoinMonotone | internal/exchange/formats.go:61-66 | rounding to a step is monotone, for every step |
| FineSteps.KuCoinBounds | internal/exchange/formats.go:61-66 | for every step the result is within half a step and half a grain of the quantity |
| FineSteps.KuCoinIdempotent | internal/exchange/formats.go:61-66 | for every step and every quantity, formatting again changes nothing |
| Formats.Digits | internal/exchange/formats.go:44 | the exponent d with 10^(d-1) < qty <= 10^d |
| Formats.DigitsAre | internal/exchange/formats.go:44 | there is only one such exponent |
| Formats.HyperliquidBounds | internal/exchange/formats.go:39-47 | the result is an integer between 10^4 and 10^5 at its scale and its relative error is at most 5e-5 |
| Formats.HyperliquidIdempotent | internal/exchange/formats.go:39-47 | formatting again changes nothing, also when rounding lands on a power of ten |
| Formats.HyperliquidMonotone | internal/exchange/formats.go:39-47 | a larger quantity never gets a smaller result, also across a power of ten |
| Formats.BitgetIsFloor | internal/exchange/formats.go:55-58 | for any number of places the result is the one multiple r of 10^-place with r <= qty < r + 10^-place |
| FineSteps.FormattingIsStableIff | internal/exchange/formats.go:89-114 | exactly the ten known exchanges are accepted; formatting non-negative quantities is idempotent for each of them and every step, except for the two flooring ones, where it is if and only if the step is as above |
| FineSteps.FormatIs | internal/exchange/formats.go:21-114 | what each of the ten exchanges gets: whole contracts or four decimals rounded down, lots rounded down or to the nearest, with the default step and the half grain off the 1e-8 grid, or a relative error of at most 5e-5 |
| FineSteps.HyperliquidDigits | internal/exchange/formats.go:39-47 | a whole number of ten thousand to a hundred thousand units of a power of ten |
| Parse.Index | internal/kernel/parse.go:68-84 | the first occurrence of a pattern, or -1 exactly when there is none |
| Parse.ExtractDecisionBody | internal/kernel/parse.go:67-94 | the body is the specified one: decision tags, then fence, then stripped text |
| Parse.StripReasoning | internal/kernel/parse.go:83-92 | the stripping loop terminates by strict length decrease and computes the specified text |
| Parse.StripEnds | internal/kernel/parse.go:83-92 | afterwards no first opening reasoning tag precedes a first closing one, and exactly the texts that had such a pair are changed |
| Parse.DecisionTagRecoveredIff | internal/kernel/parse.go:68-74 | a body in decision tags after a tag-free prefix is recovered exactly, whatever follows, if and only if it does not contain the closing tag |
| Parse.OpenTagRecoveredIff | internal/kernel/parse.go:68-74 | the same without a closing tag |
| Parse.FenceRecoveredIff | internal/kernel/parse.go:75-81 | a fenced body is recovered exactly if and only if it contains no fence and does not end in a backquote |
| Parse.ReasoningDeletedExactly | internal/kernel/parse.go:83-93 | well-formed reasoning blocks in text free of "<" are deleted exactly, for any number of blocks and any content short of the closing tag |
| Decisions.FixLaws | internal/kernel/parse.go:97-115 | repairing full-width punctuation is idempotent, distributes over concatenation and changes exactly the texts that contain some |
| Decisions.FixedIs | internal/kernel/parse.go:97-115 | each of the fourteen full-width characters becomes its own narrow one and every other character stays |
| Decisions.SpaceIs | internal/kernel/parse.go:37-56 | white space is the 25 characters that Unicode lists |
| Decisions.TrimPadding | internal/kernel/parse.go:37 | trimming removes all blank padding and nothing else |
| Decisions.ParseDecision | internal/kernel/parse.go:31-61 | accepts exactly non-empty lists (or single objects) whose decisions use the six actions and name a symbol unless they hold or wait; otherwise reports the first failure |
| Decisions.VerdictIsUnique | internal/kernel/parse.go:31-61 | every output has exactly one verdict |
| Decisions.WrappedListComesOut | internal/kernel/parse.go:31-61 | an acceptable payload in decision tags, padded or spelt with full-width punctuation, comes out exactly as decoded |
| Decisions.WrappedVerdict | internal/kernel/parse.go:31-61 | a single object in decision tags counts as a list of one, with its own failure if it is not acceptable; an empty list and undecodable payloads are the two errors |
| Decisions.AcceptableIff | internal/kernel/parse.go:48-59 | a decision is acceptable if it is to wait or to hold, or to open or close a position of a symbol with some character that is not white space |
| ContextGuard.EstimateTokens | mcp/context_guard.go:7-17 | the estimate, whose lower clamp never acts |
| ContextGuard.TotalTokens | mcp/context_guard.go:19-25 | the sum of the estimates |
| ContextGuard.EstimateIsQuarter | mcp/context_guard.go:7-17 | beyond six tokens a message and four a call, one token for four bytes, short by less than one for each text |
| ContextGuard.BytesAre | mcp/context_guard.go:7-17 | a text takes the bytes of its parts, and one byte a character if and only if it is ASCII |
| ContextGuard.BytesOfOne | mcp/context_guard.go:7-17 | a character takes the least of the one- to four-byte forms that holds its code point (RFC 3629, section 3) |
| ContextGuard.TruncateToMaxContext | mcp/context_guard.go:31-54 | the loop that drops the oldest messages computes the specified truncation |
| ContextGuard.TruncateIs | mcp/context_guard.go:31-54 | over budget: all system messages in order, then the longest suffix of the others that fits beside them, or the newest alone; within budget the messages unchanged |
| ContextGuard.BudgetIsKept | mcp/context_guard.go:31-54 | unchanged without a budget or within it; otherwise the result is within the budget or has at most one message that is not a system one |
| ContextGuard.TruncateIdempotent | mcp/context_guard.go:31-54 | truncating twice is truncating once |
| ContextGuard.TruncateMonotone | mcp/context_guard.go:31-54 | what a smaller positive budget keeps is a suffix of what a larger one keeps |
| ContextGuard.TruncateHoistCommute | mcp/hooks.go:256-265 | truncation and hoisting commute |
| ContextGuard.SameWire | mcp/hooks.go:256-299 | truncating before or after hoisting gives the same wire list |
| ContextGuard.HoistIsStablePartition | mcp/hooks.go:256-265 | hoisting keeps every message and the order within both parts, and is idempotent |
| ContextGuard.HoistIsUnique | mcp/hooks.go:256-265 | no other layout with system messages in front keeps both orders |
| ContextGuard.Partition | mcp/context_guard.go:35-42 | the loop splits system messages from the others, in order |
| ContextGuard.BuildWireMessages | mcp/hooks.go:256-299 | the wire list is the image of the hoisted messages, with the optional fields of each kind of message |
| ContextGuard.WireKeeps | mcp/hooks.go:256-299 | which fields survive: role always, text unless empty beside calls, calls if and only if there are some and it is no tool result, call id if and only if it is one, reasoning if and only if there is some |
| ContextGuard.PartsByRole | mcp/hooks.go:256-265 | one part holds exactly the messages of role system, the other all the rest |

## Left out

- Limiter.MemLimiter.Allow: requires `limit >= 1`; with a smaller limit and nothing kept the code reads the first element of an empty slice and panics.
- Atr.AtrSeries: requires highs and lows at least as long as closes once all three exceed the period; the code indexes them by the closes and panics otherwise.
- RunTable.Engine.Start: the new run id is assumed unused; the code draws it at random.
- Metrics.OnePassIsAllPairs: is stated for non-negative series, which every run that reaches the metrics has.
- Database and Redis branches of every store: library behaviour.
- Exchange adapters, market data, language-model clients, HTTP, WebSocket, SMTP, logging: I/O.
- JWT, RSA, AES, HMAC, bcrypt, CORS and the authentication handlers: cryptography and plumbing.
- JSON encoding and decoding, prompt texts and prompt linting: a parameter, or string formatting.
- Floating-point rounding, NaN and infinities.
- Goroutine scheduling, tickers and sleeps beyond the atomic steps; stale status reads before the completion of a debate, such as around the start of the vote.
- The bounded fan-out of debate events to subscribers (internal/debate/engine.go:324-334): events are not part of the model.
- Deleting or executing a debate session, and sessions restored from the store after a restart.
- The defaults that Start fills in for missing backtest settings: the model starts from a valid plan.
- Backtest runs restored after a restart, their labels, lists, traces and exports.
- Leverage and note fields of stored trades, wall-clock times of positions (a closed flag stands for the closing time), and the daily PnL reset, which touches none of the mirrored metrics.
- Positions in the live store are values in a sequence, not shared references: aliasing between the store and a caller's list is not captured.
- Starting and stopping live traders, the cycle's prompts and the equity snapshots of the live engine.
- Bytes that are not valid UTF-8 in a model's output.
