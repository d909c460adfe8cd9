# Verified models of the research core

This project models the algorithmic core of the research platform in Dafny and proves what that
core promises: the chart-pattern detector and its lifecycle replay, the opportunity ledger, the
indicator kernels, replay accounting, the checkpoint store, post-hoc outcome evaluation, the
session governance hook and the scanner's ranking. `dafny verify dfyconfig.toml` checks all of it.

Decimals are exact reals, instants are whole seconds, durations positive whole seconds. A raised
`ValueError` is a `None`, `Err`, `Refused`, `Refuse` or `Failure` value that leaves state unchanged. Digests are
opaque values or, where one is computed, an arbitrary function that may collide: sessions that share a
digest share a hook record, and every hook result is about records so named.
Loops of the source are loops here, proved against a specification function or predicate; the
results are then proved about that specification. The checkpoint store and the hook are classes.

| file | contents |
|---|---|
| `Market.dfy` | candles and shared arithmetic |
| `Smoothing.dfy` | EMA, Wilder ATR, RSI |
| `Regression.dfy`, `Channel.dfy` | least squares and the dynamic trend channel |
| `Supertrend.dfy`, `Swings.dfy` | Supertrend and confirmed swings |
| `ChartGeometry.dfy`, `ChartLifecycle.dfy`, `ChartPattern.dfy` | boundaries, candle replay, the whole detector |
| `Ledger.dfy` | the lifecycle ledger |
| `Drawdown.dfy`, `Counterfactual.dfy` | drawdown, rule effectiveness, counterfactual equity |
| `ReplayStore.dfy` | checkpoints and wallet resets |
| `Outcomes.dfy` | outcome evaluation over a horizon |
| `Hook.dfy` | the session governance hook |
| `Scanner.dfy` | deduplication, ranking, selection |

## Where the code and the obvious expectation differ

- Supertrend recovers its direction by comparing the published band with the upper band. On a
  collapsed band (upper equals lower) an up-trend is read as a down-trend, so a motionless market
  turns the direction over by itself (`Supertrend.FlatMarketFlips`). `RefinesExactlyWhen` gives the
  exact condition under which the code agrees with a machine that remembers its direction.
- For the same reason the band of an up-trend can fall. Out of a collapsed band a bar can be read as
  rising although it closes below its own lower band, and the next bar then lets that band down
  (`Supertrend.UpTrendBandFalls`, the default settings included). `BandFollowsTrend` and
  `UpTrendRatchets` say exactly when it happens; the band of a down-trend never rises.
- The evidence-incomplete blocker compares counts. It is raised not only when an activation has no
  outcome but also when an activation key repeats (`Counterfactual.CompleteExactlyWhen`). One request
  cannot repeat a blocker (src/ai4binance/domain/research/virtual_runtime_request.py:155-157), so a
  repeat means that two cycles share a decision id; then the blocker stands on full evidence
  (`Counterfactual.RepeatedDecisionIsIncomplete`).
- A level of zero counts as unset when hits are reported, so bullish and bearish evaluation are
  mirror images exactly when no level, and no level's image, is zero (`Outcomes.ReflectionExactlyWhen`,
  `Outcomes.ZeroLevelBreaksSymmetry`).
- Boundaries are not frozen from the first decision on: if the last pivot became available inside a
  bar that closes only after the decision, that bar enters the tolerance later and the same anchors
  get another boundary (`ChartPattern.UnsettledHistoryMovesBoundary`). It cannot happen to a pivot that
  becomes available at a candle's close if the next candle opens no earlier (`PivotsOnCloseSettle`), nor to a pattern whose replay has moved
  (`MovedMeansSettled`), so terminal patterns stay as they are without any such condition.
- Selection marks by key, so its guarantees rest on the deduplication before it
  (`Scanner.SharedKeySpreadsSelection`).
- The default ranks of the lifecycle transition table never decide a transition, because every
  state outside the table is handled before it is consulted (`Ledger.TransitionExactly`).

## Model

| member | source | states |
|---|---|---|
| `Smoothing.Ema` | src/ai4binance/indicators.py:49-57 | fails exactly on a bad period or too few values; otherwise the latest smoothed value, which is the last element of the series |
| `Smoothing.ComputeEmaSeries` | src/ai4binance/indicators.py:60-69 | the loop yields the smoothed value of every long-enough prefix |
| `Smoothing.EmaSeriesNoRepaint` | src/ai4binance/indicators.py:60-69 | the series of a prefix is a prefix of the series |
| `Smoothing.SmoothIsWeightedSum` | src/ai4binance/indicators.py:49-57 | the recurrence equals a closed-form weighted sum with geometrically decaying weights |
| `Smoothing.WeightsSumToOne` | src/ai4binance/indicators.py:49-57 | those weights add up to one |
| `Smoothing.EmaExactly` | src/ai4binance/indicators.py:49-57 | period times the first average is the sum of its values; later, period + 1 times the average is twice the newest value and period - 1 times the old average |
| `Smoothing.EmaWithinRange` | src/ai4binance/indicators.py:49-57 | EMA lies within any bounds on its inputs, so within their minimum and maximum |
| `Smoothing.Atr` | src/ai4binance/indicators.py:97-116 | Wilder's loop equals smoothing of the true ranges with alpha 1/period; fails exactly on too few candles |
| `Smoothing.WilderAtrSeries` | src/ai4binance/indicators.py:356-374 | the series loop yields the ATR of every prefix and ends in the ATR of the whole |
| `Smoothing.AtrExactly` | src/ai4binance/indicators.py:97-116 | period times the first ATR is the sum of the true ranges; later it is the newest true range and period - 1 times the old ATR |
| `Smoothing.TrueRangeIsReach` | src/ai4binance/indicators.py:97-116 | a true range is the reach of the bar's prices together with the close before |
| `Smoothing.AtrNonNegative` | src/ai4binance/indicators.py:97-116 | ATR is never negative |
| `Smoothing.AtrMirror` | src/ai4binance/indicators.py:97-116 | ATR is unchanged when every price is reflected about any level and highs and lows exchanged |
| `Smoothing.Averages` | src/ai4binance/indicators.py:260-265 | the loop advancing both averages computes the Wilder average of gains and of losses |
| `Smoothing.Rsi` | src/ai4binance/indicators.py:253-271 | RSI is computed from the Wilder averages and lies in [0, 100] |
| `Smoothing.RsiShare` | src/ai4binance/indicators.py:266-271 | RSI times total movement is one hundred times the gains |
| `Smoothing.RsiExactly` | src/ai4binance/indicators.py:253-271 | on a series: the average gain's share of all average movement, or fifty when nothing moves |
| `Smoothing.RsiExtremes` | src/ai4binance/indicators.py:253-271 | only rising gives one hundred, only falling gives zero |
| `Smoothing.RsiReflection` | src/ai4binance/indicators.py:253-271 | the RSI of a series and of its reflection about any level add up to exactly 100 |
| `Regression.LinearRegressionLatest` | src/ai4binance/indicators.py:321-337 | the loop returns the fitted slope and the fitted value at the last point; fails exactly below two values |
| `Regression.DenominatorPositive` | src/ai4binance/indicators.py:332-333 | the denominator is positive for every length of at least two, so that error is never raised |
| `Regression.NormalEquations` | src/ai4binance/indicators.py:321-337 | the residuals of the fit have neither mean nor trend |
| `Regression.FitIsOptimal` | src/ai4binance/indicators.py:321-337 | any other line's squared error exceeds the fit's by exactly the distance between the lines, so the fit is the unique minimiser |
| `Regression.ExactOnLines` | src/ai4binance/indicators.py:321-337 | on exactly linear data the true slope and last value are returned |
| `Channel.DynamicTrendChannel` | src/ai4binance/indicators.py:199-250 | rejects exactly the invalid settings and short series; otherwise every point is the fit of its window with a band of the multiplier times the plain mean of the last true ranges |
| `Channel.SeedOnly` | src/ai4binance/indicators.py:233-235 | over exactly period ranges, ATR is their plain mean |
| `Channel.ChannelExactly` | src/ai4binance/indicators.py:229-250 | on every published point: up or down exactly when the slope leaves the threshold, above or below exactly when the close leaves the band, width the multiplier times the mean of the last true ranges |
| `Channel.ChannelNoRepaint` | src/ai4binance/indicators.py:199-250 | the channel of a prefix is a prefix of the channel |
| `Channel.ChannelMidlineIsBestLine` | src/ai4binance/indicators.py:229-237 | the band encloses the midline symmetrically and the midline's line has the least squared error |
| `Supertrend.ComputeSupertrend` | src/ai4binance/indicators.py:119-168 | the loop yields, per bar, the recovered direction, its active band and ATR |
| `Supertrend.PublishedExactly` | src/ai4binance/indicators.py:136-167 | every published bar in raw prices: bands around the four-price mean the multiplier times ATR apart from it, tightened against the bands before, and the direction from the band published last |
| `Supertrend.SupertrendNoRepaint` | src/ai4binance/indicators.py:119-168 | published points never change when candles are appended |
| `Supertrend.RefinesExactlyWhen` | src/ai4binance/indicators.py:148-164 | the equality test agrees with a remembered direction on a whole run if and only if no up-trend bar follows a collapsed band without closing on one side of both new bands |
| `Supertrend.RefinesWhenBandsApart` | src/ai4binance/indicators.py:148-164 | in particular on every run whose bands stay apart |
| `Supertrend.FlatMarketFlips` | src/ai4binance/indicators.py:160-163 | a concrete run on which they disagree |
| `Supertrend.BandFollowsTrend` | src/ai4binance/indicators.py:148-164 | from the second bar of a trend, or the opening bar, the band of a down-trend never rises, and that of an up-trend falls if and only if the bar before entered it from a collapsed band, closed below it, and the new bar's own band is lower |
| `Supertrend.UpTrendRatchets` | src/ai4binance/indicators.py:155-159 | over any stretch of an up-trend the lower band never falls if and only if no candle of the stretch slips in that way |
| `Supertrend.UpTrendRatchetsWhenBandsApart` | src/ai4binance/indicators.py:155-159 | in particular over stretches whose bands stay apart |
| `Supertrend.UpTrendBandFalls` | src/ai4binance/indicators.py:148-164 | at every period and any multiplier up to 0.46 times it, a run whose up-trend band falls on its third bar |
| `Supertrend.DownTrendRatchets` | src/ai4binance/indicators.py:150-154 | over a whole down-trend the upper band never rises |
| `Swings.ConfirmedSwings` | src/ai4binance/indicators.py:171-196 | the loop yields exactly the strict window extremes, in order; fails exactly on bad windows or a short series |
| `Swings.WindowTest` | src/ai4binance/indicators.py:186-195 | equal to the window's maximum and counted once means strictly above every other, and dually for lows |
| `Swings.SwingsNoRepaint` | src/ai4binance/indicators.py:171-196 | what a prefix confirmed heads what the full series confirms, and new pivots lie past the prefix's right edge |
| `Swings.SwingsSpacing` | src/ai4binance/indicators.py:171-196 | two pivots of one kind are more than min(left, right) bars apart |
| `ChartGeometry.AlternatingSwings` | src/ai4binance/intelligence/structure.py:33-53 | the loop computes the collapse of same-side pivots |
| `ChartGeometry.AlternatingGuarantees` | src/ai4binance/intelligence/structure.py:33-53 | sides alternate, instants are distinct, only input pivots survive, none is lost to a weaker one, and the survivors lead the one-sided runs in input order |
| `ChartGeometry.AlternatingExactly` | src/ai4binance/intelligence/structure.py:33-53 | a sequence is the selection if and only if it lists, in input order, the first most extreme pivot of each maximal one-sided run of the unambiguous pivots |
| `ChartGeometry.AlternatingIsIdempotent` | src/ai4binance/intelligence/structure.py:33-53 | pivots that already alternate at distinct instants are kept as they are, so selecting twice is selecting once |
| `ChartGeometry.ReversalFrame` | src/ai4binance/opportunity_intelligence.py:789-839 | outer boundary the tolerance beyond the most extreme pivot, neckline on the most extreme counter-pivot, bias towards the neckline |
| `ChartGeometry.ReversalExactly` | src/ai4binance/opportunity_intelligence.py:789-839 | each of the six reversal kinds, its pivots, and none at all, exactly when the pivots' own sides and prices say so |
| `ChartGeometry.SlopedLineHitsPivots` | src/ai4binance/opportunity_intelligence.py:855-866 | a sloped boundary passes through both of its pivots |
| `ChartGeometry.FlatLineBoundsPivots` | src/ai4binance/opportunity_intelligence.py:867-872 | a flat boundary bounds both pivots and is within the tolerance of each |
| `ChartGeometry.BoundariesMeetPivots` | src/ai4binance/opportunity_intelligence.py:842-882 | in every converging pattern each pivot lies on the boundary of its side when that is sloped, and on it or at most the tolerance inside it when flat |
| `ChartGeometry.ConvergingExactly` | src/ai4binance/opportunity_intelligence.py:842-897 | a consolidation is found exactly when two highs and two lows stand apart at the first pivot and are level or closing in; its name, bias and lines follow from how fast each side moves |
| `ChartGeometry.ApexClosesBoundaries` | src/ai4binance/opportunity_intelligence.py:842-882 | every converging pattern but a rectangle has a finite apex ahead, open before it and closed from it on; a rectangle never closes |
| `ChartGeometry.ReversalMirror` | src/ai4binance/opportunity_intelligence.py:789-839 | pivots reflected about any level give the reflected reversal |
| `ChartGeometry.ConvergingMirror` | src/ai4binance/opportunity_intelligence.py:842-897 | pivots reflected about any level give the reflected consolidation |
| `ChartLifecycle.RunLifecycle` | src/ai4binance/opportunity_intelligence.py:900-942 | the loop with its early returns equals the fold over candles |
| `ChartLifecycle.LifecycleIsFirstEvent` | src/ai4binance/opportunity_intelligence.py:900-942 | in closes and boundary prices alone: the outcome is the one the first-event specification names, both ways; confirmed exactly when every close from the first outside one stays beyond the same line; failure needs an earlier confirming close, invalidation a committed bias and none |
| `ChartLifecycle.TerminalLatches` | src/ai4binance/opportunity_intelligence.py:909-942 | after a terminal prefix no extension changes state, bias or count |
| `ChartLifecycle.OnlyEligibleMatter` | src/ai4binance/opportunity_intelligence.py:911-914 | candles before availability cannot affect the result |
| `ChartLifecycle.ExpiryEnds` | src/ai4binance/opportunity_intelligence.py:909-921 | a run of any pattern with more eligible candles than the expiry has ended |
| `ChartLifecycle.ApexEnds` | src/ai4binance/opportunity_intelligence.py:842-942 | a run of a converging pattern with an eligible candle at or past its apex has ended |
| `ChartLifecycle.ReplayMirror` | src/ai4binance/opportunity_intelligence.py:900-942 | reflected about any level: same state and count, opposite bias |
| `ChartPattern.ConfirmedChartPattern` | src/ai4binance/opportunity_intelligence.py:945-981 | the detector assembled from its loops equals its specification |
| `ChartPattern.WinnerExactly` | src/ai4binance/opportunity_intelligence.py:965-981 | a five-pivot reversal wins, then a consolidation, then a double; none without fifteen candles of history or any range |
| `ChartPattern.InputsExactly` | src/ai4binance/opportunity_intelligence.py:639-642 | the closed candles, the visible pivots and the last five of the selection |
| `ChartPattern.DetectExactly` | src/ai4binance/opportunity_intelligence.py:956-981 | a pattern is reported exactly when there are fifteen candles, three pivots and a geometry, with that geometry, its latest availability and its replay |
| `ChartPattern.DetectMirror` | src/ai4binance/opportunity_intelligence.py:945-1020 | mirror symmetry of the whole detector about any price level, from raw candles and pivots to kind, boundaries, state and bias |
| `ChartPattern.MirrorIsMarket` | src/ai4binance/domain/market_data.py:47-62 | reflected about any level above half the highest price, valid candles and pivots are valid again, so both sides of the symmetry are inputs |
| `ChartPattern.NoFutureLeakage` | src/ai4binance/opportunity_intelligence.py:621-654 | open candles and unconfirmed pivots cannot influence a decision |
| `ChartPattern.PatternIsAvailable` | src/ai4binance/opportunity_intelligence.py:292-295 | every reported pattern rests on pivots available at the decision, so that construction check never fails |
| `ChartPattern.TerminalNeverReconfirms` | src/ai4binance/opportunity_intelligence.py:945-981 | with the same pivots visible, a terminal pattern reports the same observation at every later decision |
| `ChartPattern.GeometryFreezes` | src/ai4binance/opportunity_intelligence.py:945-981 | with the same pivots visible, a later decision sees the same kind, anchors and boundaries once the history has settled |
| `ChartPattern.HistoryFrozenExactlyWhen` | src/ai4binance/opportunity_intelligence.py:965-970 | two decisions measure the tolerance on the same candles if and only if no candle opened before the last pivot's availability closes between them |
| `ChartPattern.PivotsOnCloseSettle` | src/ai4binance/intelligence/structure.py:142-143 | in a strictly chronological series, a pivot that becomes available at the close of a candle leaves the history settled at every pair of later decisions if and only if the next candle opens no earlier |
| `ChartPattern.MovedMeansSettled` | src/ai4binance/opportunity_intelligence.py:945-981 | once the replay has moved off POTENTIAL the history has settled |
| `ChartPattern.UnsettledHistoryMovesBoundary` | src/ai4binance/opportunity_intelligence.py:965-971 | a concrete unsettled history under which the same anchors get another boundary |
| `Ledger.TransitionExactly` | src/ai4binance/opportunity_intelligence.py:1082-1121 | the transition relation without table defaults |
| `Ledger.TransitionsByName` | src/ai4binance/opportunity_intelligence.py:1082-1121 | allowed first states and every allowed and forbidden step, over named states and stages |
| `Ledger.AppendExactly` | src/ai4binance/opportunity_intelligence.py:407-431 | each acceptance and each refusal of one append, exactly when it occurs |
| `Ledger.ReachableExactlyWellFormed` | src/ai4binance/opportunity_intelligence.py:401-436 | a ledger is reachable by appends from empty if and only if ids are unique and every opportunity's history starts observed, is chronological and follows the transition relation |
| `Ledger.ReplayRebuilds` | src/ai4binance/opportunity_intelligence.py:407-431 | folding append over a ledger's own events rebuilds it exactly |
| `Ledger.Idempotent` | src/ai4binance/opportunity_intelligence.py:407-414 | re-appending recorded events, in any order and number, changes nothing |
| `Ledger.ReachableHistories` | src/ai4binance/opportunity_intelligence.py:415-431 | observed start, ordered times, absorbing end states, and rank lost only through a blocked to watch-only step, at any distance |
| `Ledger.InterleavingCommutes` | src/ai4binance/opportunity_intelligence.py:407-436 | swapping adjacent events of different opportunities anywhere in a run preserves acceptance and every history |
| `Drawdown.MaxDrawdown` | src/ai4binance/historical_replay_evaluation.py:1326-1332 | the single pass returns the largest fall from an earlier to a later point |
| `Drawdown.DrawdownDuration` | src/ai4binance/historical_replay_evaluation.py:1335-1345 | the single pass returns the longest time since the running peak was last attained |
| `Drawdown.ZeroDepth` | src/ai4binance/historical_replay_evaluation.py:1326-1332 | depth is zero exactly when equity never falls |
| `Drawdown.ZeroDuration` | src/ai4binance/historical_replay_evaluation.py:1335-1345 | with increasing times, duration is zero exactly when equity never falls |
| `Counterfactual.Effectiveness` | src/ai4binance/historical_replay_evaluation.py:720-880 | succeeds exactly on admissible outcomes; one row per rule that fired; totals and rows count, index by index, the activations, the outcomes evaluated, those that lost as protective and those that won as false blocks, and sum losses and profits separately; the rows add up to the totals; each of the three blockers present exactly when due |
| `Counterfactual.ActivationsExactly` | src/ai4binance/historical_replay_evaluation.py:709-717 | as many activations as blockers with the prefix other than the sentinel, each under its decision and rule |
| `Counterfactual.TallyExactly` | src/ai4binance/historical_replay_evaluation.py:785-788 | protective counts the losing outcomes, false blocks the winning ones, and their amounts are summed apart |
| `Counterfactual.RuleTallyExactly` | src/ai4binance/historical_replay_evaluation.py:790-811 | the same for one rule's outcomes |
| `Counterfactual.ReportConserves` | src/ai4binance/historical_replay_evaluation.py:789-817 | summing any distinct, covering per-rule report gives the totals |
| `Counterfactual.CompleteExactlyWhen` | src/ai4binance/historical_replay_evaluation.py:832-835 | as many outcomes as activations exactly when activations are distinct and each has one |
| `Counterfactual.RepeatedDecisionIsIncomplete` | src/ai4binance/historical_replay_evaluation.py:832-835 | two cycles sharing a decision raise the incomplete blocker although every activation has its outcome |
| `Counterfactual.CheckOutcomes` | src/ai4binance/historical_replay_evaluation.py:750-778 | raises exactly when some outcome is unknown, vetoed, mismatched or out of replay time, and which error: unknown first, then the first flaw of the first flawed outcome |
| `Counterfactual.CheckExactly` | src/ai4binance/historical_replay_evaluation.py:753-778 | which outcomes are refused and why, on the latest cycle of the decision |
| `Counterfactual.FirstDayExactly` | src/ai4binance/historical_replay_evaluation.py:889-893 | a result counts on a day boundary exactly when it was observed before it, and the first such boundary is a day of the curve |
| `Counterfactual.CounterfactualCurve` | src/ai4binance/historical_replay_evaluation.py:883-905 | every day of either series carries base equity plus all results so far; raises exactly when some day is not positive |
| `Counterfactual.EffectivenessWithCurve` | src/ai4binance/historical_replay_evaluation.py:720-905 | report and curve together: with one outcome per key it succeeds if and only if the outcomes are admissible and equity stays positive on every day, else the cause is named; the final counterfactual equity differs from the actual by the report's own profit missed less loss avoided |
| `Counterfactual.PnlIsOrderless` | src/ai4binance/historical_replay_evaluation.py:889-893 | the cumulative result on any day does not depend on the order of the outcomes |
| `Counterfactual.FinalEquityConserves` | src/ai4binance/historical_replay_evaluation.py:883-905 | final counterfactual less final actual equity is profit missed less loss avoided |
| `ReplayStore.Store.Restore` | src/ai4binance/historical_replay_state.py:370-400 | nothing on an empty log, else the latest checkpoint if bound to the request |
| `ReplayStore.Store.Persist` | src/ai4binance/historical_replay_state.py:329-368 | keeps the chain; writes, reports already persisted, or refuses with the log untouched |
| `ReplayStore.Store.ResetWalletEpochs` | src/ai4binance/historical_replay_state.py:408-568 | writes if and only if the reset is confirmed, not early, for the bound and latest persisted result, with one capital per market, flat and unused; which error or no-op otherwise; never touches checkpoints or earlier resets |
| `ReplayStore.BindingExactly` | src/ai4binance/historical_replay_state.py:570-590 | what binds a checkpoint to a request, and which difference is reported |
| `ReplayStore.WrittenExactly` | src/ai4binance/historical_replay_state.py:337-368 | every field of a written checkpoint |
| `ReplayStore.RefusalExactly` | src/ai4binance/historical_replay_state.py:344-353 | why a call writes nothing, each reason exactly |
| `ReplayStore.CapitalsExactly` | src/ai4binance/historical_replay_state.py:433-441 | exactly one capital for each of the two markets |
| `ReplayStore.ResetRecordExactly` | src/ai4binance/historical_replay_state.py:512-545 | what a reset records of the result it closes and of each market's capital |
| `ReplayStore.GrowsExactlyWhen` | src/ai4binance/historical_replay_state.py:337-368 | the log grows if and only if it is empty or a bound, unused, strictly longer agreeing result arrives |
| `ReplayStore.EveryRunIsChained` | src/ai4binance/historical_replay_state.py:329-368 | over every run of calls: links from genesis, one binding, increasing sequences, proper-prefix cycles, distinct audits |
| `ReplayStore.RunKeepsChain` | src/ai4binance/historical_replay_state.py:329-368 | every run only extends the log |
| `ReplayStore.RepersistIsNoOp` | src/ai4binance/historical_replay_state.py:344-346 | re-persisting the latest result is a no-op and restore returns it |
| `ReplayStore.OlderOrDivergingChangesNothing` | src/ai4binance/historical_replay_state.py:347-353 | an older or diverging result never changes the log |
| `Outcomes.FirstLevelHit` | src/ai4binance/opportunity_outcomes.py:386-402 | the early-return loop finds the first touching candle |
| `Outcomes.BestMeaning` | src/ai4binance/opportunity_outcomes.py:243-246 | the excursion is the maximum and its bar the first to attain it |
| `Outcomes.RefusedExactly` | src/ai4binance/opportunity_outcomes.py:196-199 | which inputs are refused |
| `Outcomes.LaterCandlesChangeNothing` | src/ai4binance/opportunity_outcomes.py:201-233 | appended candles never change an evaluated outcome nor revive a not-evaluable one |
| `Outcomes.EvaluatedCoversHorizon` | src/ai4binance/opportunity_outcomes.py:201-233 | evaluated means gap-free, completing within one bar of horizon times duration |
| `Outcomes.EvaluatedExactlyWhen` | src/ai4binance/opportunity_outcomes.py:201-262 | evaluated exactly when the candles are ordered, gap-free and complete and none is the first to touch both levels |
| `Outcomes.ReasonExactly` | src/ai4binance/opportunity_outcomes.py:201-262 | why an outcome is not evaluated, in order of precedence |
| `Outcomes.FlawsExactly` | src/ai4binance/opportunity_outcomes.py:201-233 | disorder and gaps in raw times |
| `Outcomes.SelectionExactly` | src/ai4binance/opportunity_outcomes.py:201-233 | the first candles opened at or after the observation, up to the horizon |
| `Outcomes.FindingsExactly` | src/ai4binance/opportunity_outcomes.py:234-313 | excursions and their first bars, hits, order, reward in units of risk, and each of the five verdicts exactly when candles and levels say so |
| `Outcomes.TargetFirstExactlyWhen` | src/ai4binance/opportunity_outcomes.py:247-293 | target first exactly when some candle touches it with no invalidation touch up to it, and then the excursion reaches the target |
| `Outcomes.ReflectionExactlyWhen` | src/ai4binance/opportunity_outcomes.py:234-313 | bullish equals bearish on the reflected market, if and only if no level or image is zero, or the candles are out of order, gapped, incomplete or touch both levels at once |
| `Outcomes.ZeroLevelBreaksSymmetry` | src/ai4binance/opportunity_outcomes.py:264-265 | a concrete case in which they differ |
| `Hook.GovernanceHook.HandleEvent` | scripts/codex_governance_hook.py:206-315 | the branching body equals the step function on the session files |
| `Hook.StopExactly` | scripts/codex_governance_hook.py:243-315 | every stop: silent or git-blocked if and only if a record that is not pending still matches the workspace; otherwise validated, answering with exactly the blockers found and recording the workspace as pending unless there were none |
| `Hook.StartExactly` | scripts/codex_governance_hook.py:229-242 | every start or prompt: when a baseline is recorded, and that nothing else changes |
| `Hook.SessionsAreIsolated` | scripts/codex_governance_hook.py:221-227 | no event touches the record of a session whose digest differs |
| `Hook.PendingClearedOnlyByCleanStop` | scripts/codex_governance_hook.py:229-315 | pending ends exactly at a clean stop of that session |
| `Hook.CleanStopMeans` | scripts/codex_governance_hook.py:262-315 | a passing stop had no blocker of any kind on a workspace that held still |
| `Hook.PromptsKeepPendingBaseline` | scripts/codex_governance_hook.py:229-242 | prompts never replace a pending baseline |
| `Hook.StopWithoutCleanRecordValidates` | scripts/codex_governance_hook.py:247-275 | a stop without a clean record of the workspace as it stands always validates |
| `Hook.SilentStopIsSound` | scripts/codex_governance_hook.py:247-250 | over every trace, a silent stop sees the workspace last recorded clean, standing untouched since |
| `Hook.NoSilenceBeforeRepair` | scripts/codex_governance_hook.py:229-315 | after a blocking stop none is silent until one passes |
| `Scanner.Deduplicate` | src/ai4binance/opportunity_scanner.py:1193-1201 | one candidate per key, none outranked by another of its key, listed in order |
| `Scanner.SortBySorts` | src/ai4binance/opportunity_scanner.py:1201 | sorting yields an ordered permutation |
| `Scanner.SortIsStable` | src/ai4binance/opportunity_scanner.py:1474-1477 | candidates of equal rank keep their order |
| `Scanner.ListingExactly` | src/ai4binance/opportunity_scanner.py:1583-1584 | accepted first, then the higher score, then the symbol |
| `Scanner.LexExactly` | src/ai4binance/opportunity_scanner.py:1583-1584 | string order by the first difference, a prefix first |
| `Scanner.ScoreExactly` | src/ai4binance/opportunity_scanner.py:1407-1422 | who is eligible, and the score with each weight on its own component |
| `Scanner.ComponentsExactly` | src/ai4binance/opportunity_scanner.py:1425-1448 | the regime and execution readings by gaps and exclusions |
| `Scanner.RankScoreIsPenalizedMean` | src/ai4binance/opportunity_scanner.py:1407-1422 | the score is a mean of its components less the penalty, within any bounds on them; the upper clamp never cuts |
| `Scanner.SelectTopKeys` | src/ai4binance/opportunity_scanner.py:1460-1479 | the chosen keys are those of the best eligible candidates of each market, as many as its limit allows |
| `Scanner.ShortlistIsTop` | src/ai4binance/opportunity_scanner.py:1460-1479 | a shortlist holds min(limit, eligible) candidates and the best of them, repeated keys or not |
| `Scanner.ApplyRanking` | src/ai4binance/opportunity_scanner.py:1371-1404 | a sorted permutation of the scored, marked input; over distinct keys each market selects min(limit, eligible), none unselected outranks a selected one, none with a gap, exclusion or hard blocker is selected |
| `Scanner.SharedKeySpreadsSelection` | src/ai4binance/opportunity_scanner.py:1396-1403 | a rejected candidate sharing a selected one's key would be selected with it |
| `Scanner.RankedCandidates` | src/ai4binance/opportunity_scanner.py:828-834 | the same guarantees from raw candidates, every key represented once, by a raw candidate no other of its key outranks |
| `Scanner.DispositionExactly` | src/ai4binance/opportunity_scanner.py:1058-1086 | each disposition and stage exactly when exclusions and gaps say so |
| `Scanner.DispositionsPartition` | src/ai4binance/opportunity_scanner.py:1058-1086 | the four dispositions partition the candidates and agree with the funnel stages |

## Left out

- Decimal context rounding and the float inside duration ratios: exact reals are the intended meaning.
- The legacy rolling-window chart detector, candlestick labels and multi-timeframe diagnostics: each is settled by one branch.
- The detector's identity digests, timeframe name check and anchor labels: presentation around the modelled observation.
- The order in which rule keys are listed in the effectiveness report: the figures proved do not depend on it, so any enumeration is allowed.
- Approved-decision counts, ratios and the virtual runtime's percentage drawdown in the effectiveness report: simple counts, or computed by code outside this model.
- Losing and winning streaks, turnover and utilisation: easy folds beside the drawdown loops.
- JSON decoding, tamper-evident hashing, locking and file writes of the audit store: the log is an append-only sequence whose records read back as written.
- ReplayStore.Store.ResetWalletEpochs: models requests that trade both markets, the scope its result contract assumes, and leaves out the generated epoch and portfolio identifiers.
- The hook's authority context, receipts and message texts: inputs and outputs of the modelled step; anything raised while inspecting is one `failed` flag.
- Candidate construction defaults, explicit stage or disposition overrides and the remaining funnel counters: each is a one-line rule or count.
- Command line, configuration, frontend, retrieval and report rendering: no algorithm to prove.
