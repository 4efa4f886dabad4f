# A verified model of the trading system's core

This project models, in Dafny, the components of the trading system where a wrong step costs money or credibility, and
proves what each is for. Floats are `real`; dates are day numbers, instants are integers; `log`, `exp`, `sqrt`, the
standard deviation, the median, model fitting, a strategy rule and a SQL collation are parameters about which only
what a lemma names is assumed.

* **Evaluation.** `RankStats` proves the sort-and-average-ranks AUC equal to the pairwise Mann-Whitney count.
  `Portfolio` and `PortfolioBooks` prove what the rotating sleeves hold and that the one-tranche book is the daily
  book; `BookWindow`, `RelativeBook` and `BookDrift` on which sessions the two loops over such books agree, and on
  which they cannot be relied on to.
* **Validation.** `Combinatorics`, `Cpcv`, `CpcvProperties` and `CpcvRun` take combinatorial purged cross-validation
  from `itertools.combinations` to the stitched path; `WalkForward` does the forward folds; `Labels`, `ExcessLabels`,
  `MarketPath`, `MarketIndex` and `PanelLabels` the first-touch labels and their benchmark, `LabelWindows` and
  `PanelWindows` the same over trimmed histories; `Leakage` joins splits and labels; `Uniqueness` the overlap weights.
* **Point-in-time stores.** `MacroStore` and `MacroService` prove the one-pass regime sweep equal to a query per day;
  `Fundamentals` proves that no as-of read sees a value filed later.
* **Market data.** `Upsert` is the bulk write, `Incremental` the convergence of repeated syncs, `MarketService` the
  cache.
* **Execution.** `Ledger` and `LedgerRuns` are the broker as a value with its laws over all runs, `PaperBroker` the
  mutable broker proved to step that way, `Execution` and `ExecutionService` the handlers, `Delivery` the protocol of
  redelivery and crashes, `Acknowledgement`, `Exits` and `FlattenRace` what it keeps and what it can lose.
* **Backtest and outcomes.** `Backtest` scores position paths; `InferenceLog`, `Outcomes`, `OutcomeWindows` and
  `VoteBenchmark` are the delayed-label queue, what a run decides from the window it reads, and from the queue it
  finds.

Code that changes things step by step is a method or a class here, proved against a specification function or
predicate whose own properties are then proved; expression code is functions.

## Where the code and its documentation disagree

The model follows the code; the lemma named shows the difference.

* `relative_metrics` skips one-row sessions before rotating the sleeves, although the shared helper is documented as
  making drift from the gate's book impossible. On the sessions less than `tranches` after a one-row session the two
  books can hold different names and earn differently (`BookDrift.BooksAgreeIff`, `BookDrift.BooksDifferAfterOneRow`);
  turnover and cost can differ one session longer (`BookDrift.LinesAgreeIff`); after that they are the same again.
* A backtest's equity curve is documented as starting at 1.0. It starts after the first scored return. That the
  drawdown counts the starting capital, however the path goes on, holds exactly when that return is not a loss
  (`Backtest.CapitalCountedIffFirstGain`, `Backtest.HalvingIsNoDrawdown`).
* Purging rules out leakage only for a non-negative embargo, which neither splitter checks
  (`CpcvProperties.NeverLeaksIff`, `WalkForward.FoldPurgedIff`). A zero step means the test size, and a negative one
  never ends (`WalkForward.NegativeStepNeverEnds`).
* An order survives a crash because its state is saved before it is announced, but a save that raises while the
  process lives leaves the id in the in-memory dedup set only (`Acknowledgement.SurvivingSaveFailureLosesOrder`).
  Liquidations and protective exits are announced before they are saved, and a crash in between leaves an announced
  fill nothing reflects (`Exits.ExitsHeldIff`, `FlattenRace.LiquidationOfABuyIsLost`).
* The service is documented as long-only. Any side other than BUY and SELL is sold without the cap
  (`Execution.UnknownSideGoesShort`), and a flatten sells the quantities it captured before it first awaited, so a
  sale filled meanwhile is sold again (`FlattenRace.FlattenGoesShort`).
* The outcome resolver is documented as judging a vote by the rule it was trained on. Its benchmark is the median of
  the symbols that happen to have votes pending, so another vote's leaving the queue can turn a verdict round
  (`VoteBenchmark.OppositeVerdicts`).
* A restatement within the drift tolerance is not repaired by the sync that meets it
  (`MarketService.SmallRestatementIsMissed`), and a zero limit answered from the cache is the whole window
  (`MarketService.MarketDataService.GetOhlcv`).
* A regime history reaching 9999-12-31 overflows, and on that date undated rows are visible
  (`MacroService.RegimeHistory`, `MacroService.UndatedRowVisibleAtTheEnd`).
* The regime cascade calls a flat curve without PMI a contraction, and a slowdown once the spread is wide
  (`Regime.WorseIsMilderIff`).
* The resolver's read margin is documented as slack on top of what a label needs; a label needs one bar more than
  counted, so a run 60 bars past a vote's window no longer decides it (`OutcomeWindows.AbsoluteReadsAsWhole`).
* The fundamentals table describes its as-of read as on or before the session; the query is strictly before its
  midnight (`Fundamentals.VisibleFromMidnightOn`).

## Model

| member | source | states |
|---|---|---|
| RankStats.AverageRanks | services/ml-pipeline/src/core/evaluation.py:447-459 | each element's 0-based rank is the number of values it beats plus half of the others it ties with |
| RankStats.TieBlockRank | services/ml-pipeline/src/core/evaluation.py:452-458 | in a sorted sequence the average position of a whole tie block is that pairwise rank |
| RankStats.Auc | services/ml-pipeline/src/core/evaluation.py:19-42 | the rank-sum form returns the Mann-Whitney statistic: pairs won plus half the pairs tied, over all positive-negative pairs; 0.5 when a class is missing |
| RankStats.RankSumIsPairCount | services/ml-pipeline/src/core/evaluation.py:28-42 | the positives' rank sum is the pairs they win plus n(n+1)/2, by double counting |
| RankStats.AucInUnitInterval | services/ml-pipeline/src/core/evaluation.py:19-42 | for every binary labelling the AUC lies in [0, 1] |
| RankStats.AucMonotoneInvariant | services/ml-pipeline/src/core/evaluation.py:19-42 | any strictly increasing transform of the scores leaves it unchanged |
| RankStats.AucNegated | services/ml-pipeline/src/core/evaluation.py:19-42 | negating the scores gives one minus it (a degenerate labelling stays at 0.5) |
| Sorting.ArgSortOrders | services/ml-pipeline/src/core/evaluation.py:449 | the argsort used is a permutation of the indices in non-decreasing key order |
| Sorting.StableSortKeepsTies | services/ml-pipeline/src/core/market_path.py:50-70 | the sort used everywhere keeps tied elements in their input order |
| Portfolio.SessionCost | services/ml-pipeline/src/core/evaluation.py:462-485 | a session is charged the per-name prices (flat where a name has none) of the names entered, as a share of the book |
| Portfolio.RefreshInFull | services/ml-pipeline/src/core/evaluation.py:462-485 | cost times the book's weight is the sum of the entrants' own prices in basis points, turnover times it their number |
| Portfolio.TopIsBest | services/ml-pipeline/src/core/evaluation.py:511-513 | the rows selected are max(1, ceil(quantile x rows)) of the session's, and none left out ranks strictly better |
| Portfolio.TopSize | services/ml-pipeline/src/core/evaluation.py:511-513 | the rows selected are the least number that makes up the quantile, at least one and no more than there are, and the names held are theirs |
| Portfolio.FlatCostIsTurnover | services/ml-pipeline/src/core/evaluation.py:462-485 | a flat rate, or a table that says the same of every entrant, costs exactly bps/10000 per unit of turnover |
| Portfolio.TrancheHoldings | services/ml-pipeline/src/core/evaluation.py:488-524 | after every session each sleeve holds the selection of the latest session it was refreshed on, with the turnover and cost of the active one |
| Portfolio.LatestMeaning | services/ml-pipeline/src/core/evaluation.py:508-524 | the refresh in force is the last session at or before t congruent to the sleeve's index |
| Portfolio.HeldForTranches | services/ml-pipeline/src/core/evaluation.py:488-524 | a refreshed sleeve is untouched for the next tranches - 1 sessions |
| Portfolio.TurnoverBounds | services/ml-pipeline/src/core/evaluation.py:515-524 | turnover lies in [0, 1/tranches] |
| PortfolioBooks.OverlappingPortfolio | services/ml-pipeline/src/core/evaluation.py:750-787 | the loop over sessions yields, for each, the mean return of the chained sleeves less the cost, the turnover and the number of names |
| PortfolioBooks.TopQuantilePortfolio | services/ml-pipeline/src/core/evaluation.py:118-190 | one tranche runs the daily loop with the previous names carried, more run the overlapping book |
| PortfolioBooks.OneTrancheIsDaily | services/ml-pipeline/src/core/evaluation.py:153-190 | with one tranche and one row per symbol the overlapping construction is the daily book: same returns, turnover, cost and counts |
| BookWindow.DailyInFull | services/ml-pipeline/src/core/evaluation.py:153-175 | a session of the daily book written out: the mean return of the rows selected less the cost, charged for the names not held the session before |
| PortfolioBooks.BookNeverEmpty | services/ml-pipeline/src/core/evaluation.py:591-592 | on a session with rows the book holds something, so neither loop ever skips it as empty |
| BookWindow.BookIsWindow | services/ml-pipeline/src/core/evaluation.py:488-524 | after every session the names held, sleeve after sleeve, are the selections of the last tranches sessions |
| BookWindow.SameBookSameReturn | services/ml-pipeline/src/core/evaluation.py:571-586 | gross return, count and distinct names depend only on which names are held how often, not on the sleeve that holds them |
| BookWindow.GrossInFull | services/ml-pipeline/src/core/evaluation.py:488-602 | what a session earns: the mean return there over the names selected in the last tranches sessions, each as often as it was, less the cost |
| BookWindow.ChargesInFull | services/ml-pipeline/src/core/evaluation.py:462-524 | what it is charged: for the names of the session not among those of tranches sessions before, as a share of the book |
| RelativeBook.RelativeLines | services/ml-pipeline/src/core/evaluation.py:546-602 | the loop over the ranked sessions appends, for each, the long book's line, the short book's return and the equal-weight return of the session |
| RelativeBook.RelativeInFull | services/ml-pipeline/src/core/evaluation.py:546-602 | the same line written out: long over the highest-ranked picks of the last tranches ranked sessions less the cost, short over the lowest-ranked, the bench over every row |
| RelativeBook.SameSourceIff | services/ml-pipeline/src/core/evaluation.py:546-563 | the metrics' sleeve holds the selection of the same session as the gate's sleeve of that number exactly when that session was ranked and the one-row sessions before it number a multiple of the tranches, or neither has refreshed it yet |
| RelativeBook.SameSourcesIff | services/ml-pipeline/src/core/evaluation.py:546-563 | sleeve by sleeve the books come from the same sessions exactly when none of the last tranches sessions was skipped and the skipped ones so far number a multiple of the tranches |
| RelativeBook.SameBookWhenNoneSkipped | services/ml-pipeline/src/core/evaluation.py:546-586 | with none of the last tranches sessions skipped the two books hold the same names, each as often |
| RelativeBook.OneTrancheSameBook | services/ml-pipeline/src/core/evaluation.py:546-590 | with one tranche book and gross return agree on every ranked session, and the turnover of each is charged against the session before in its own list |
| BookDrift.BooksAgreeIff | services/ml-pipeline/src/core/evaluation.py:546-586 | for given row counts: the two books hold the same names on a session on every panel exactly when none of the tranches - 1 sessions before it was skipped; and exactly then the gross returns agree on every panel |
| BookDrift.TurnoversAgreeIff | services/ml-pipeline/src/core/evaluation.py:515-524 | the turnovers agree on every such panel exactly when it is too early to replace a sleeve or none of the last tranches sessions was skipped |
| BookDrift.CostsAgreeIff | services/ml-pipeline/src/core/evaluation.py:515-524 | exactly then the costs agree, on every such panel at any prices |
| BookDrift.LinesAgreeIff | services/ml-pipeline/src/core/evaluation.py:571-590 | the whole line agrees on every such panel at any prices exactly when none of the last tranches sessions was skipped |
| BookDrift.RelativeBookIsGateBookIff | services/ml-pipeline/src/core/evaluation.py:772-783 | on every panel of given row counts the two books agree on every ranked session exactly when there is one tranche or no one-row session comes before a ranked one |
| BookDrift.RelativeLinesAreGateLinesIff | services/ml-pipeline/src/core/evaluation.py:772-783 | and the lines agree throughout, at any prices, exactly when no one-row session comes before a ranked one, whatever the tranches |
| BookDrift.BooksDifferAfterOneRow | services/ml-pipeline/src/core/evaluation.py:546-586 | three sessions, two tranches: after the one-row session the gate holds C and D for a gross return of 0.05, the metrics A and D for 0 |
| RelativeBook.SameLineWhenNoneSkipped | services/ml-pipeline/src/core/evaluation.py:571-590 | with the session a refresh replaces ranked too, return, turnover, cost and names are the same |
| RelativeBook.SameUntilFirstOneRow | services/ml-pipeline/src/core/evaluation.py:546-590 | before the first one-row session the two books' lines are equal, at the same index |
| RelativeBook.LoopsAgree | services/ml-pipeline/src/core/evaluation.py:571-590 | with none of the last tranches sessions skipped the gate's loop and the metrics' loop append the same net, gross, turnover and cost |
| Combinatorics.Absorption | services/ml-pipeline/src/core/cpcv.py:63-71 | k C(N,k) = N C(N-1,k-1) |
| Combinatorics.CombosExact | services/ml-pipeline/src/core/cpcv.py:97 | the combinations are exactly the strictly increasing k-tuples |
| Combinatorics.CombosDistinct | services/ml-pipeline/src/core/cpcv.py:97 | none of them comes twice |
| Combinatorics.CombosInOrder | services/ml-pipeline/src/core/cpcv.py:97 | they come in dictionary order |
| Combinatorics.CombosCount | services/ml-pipeline/src/core/cpcv.py:97 | there are C(N,k) of them |
| Combinatorics.CombosWith | services/ml-pipeline/src/core/cpcv.py:137-140 | each group is in C(N-1,k-1) of them |
| Cpcv.PathCountIsExact | services/ml-pipeline/src/core/cpcv.py:63-71 | the path count divides exactly and is the number of splits testing any one group |
| Cpcv.BuildSplit | services/ml-pipeline/src/core/cpcv.py:98-116 | one combination's split: its blocks tested, everything within the gap of a block excluded; dropped when either side is empty |
| Cpcv.CpcvSplits | services/ml-pipeline/src/core/cpcv.py:74-127 | rejects exactly the impossible designs and otherwise returns the surviving splits in order with their paths |
| Cpcv.TestIndexMeaning | services/ml-pipeline/src/core/cpcv.py:100-102 | the tested sessions are those inside a tested block |
| Cpcv.ExcludedMeaning | services/ml-pipeline/src/core/cpcv.py:106-107 | the excluded sessions are those inside a tested block widened by the gap on both sides |
| Cpcv.AssemblePaths | services/ml-pipeline/src/core/cpcv.py:130-157 | row j takes, for every group, the j-th split testing it, stopping at the first row some group cannot fill |
| Cpcv.TestingSplitsMeaning | services/ml-pipeline/src/core/cpcv.py:146-149 | a group's list names exactly the splits testing it, in order and once each |
| CpcvProperties.PathNamesTestingSplit | services/ml-pipeline/src/core/cpcv.py:130-157 | paths[j][g] always names a split that tests g |
| CpcvProperties.PairServesOnePath | services/ml-pipeline/src/core/cpcv.py:139-140 | no (split, tested group) pair serves two paths |
| CpcvProperties.ExactCover | services/ml-pipeline/src/core/cpcv.py:139-140 | with no split dropped every such pair serves a path |
| CpcvProperties.CompleteIffNothingDropped | services/ml-pipeline/src/core/cpcv.py:151-157 | all C(N-1,k-1) paths are assembled exactly when no split was dropped |
| CpcvProperties.NothingDroppedWhenSmall | services/ml-pipeline/src/core/cpcv.py:98-116 | no split is dropped, and every path assembled, when the tested blocks widened by the gap are too small to cover the history |
| CpcvProperties.TrainExactlyBeyondGap | services/ml-pipeline/src/core/cpcv.py:103-108 | the training sessions are exactly those more than the gap away from every tested one |
| CpcvProperties.SplitInFull | services/ml-pipeline/src/core/cpcv.py:98-116 | a split in terms of equal blocks of the session list: it tests the dates inside its blocks and trains on those not within the gap of one, each once, in order, whatever the gap |
| CpcvProperties.DesignInFull | services/ml-pipeline/src/core/cpcv.py:74-127 | every split returned is such a split of an increasing choice of groups with something on either side, every choice that leaves a session to train on is there, and they come in dictionary order |
| CpcvProperties.PurgedWindowsDisjoint | services/ml-pipeline/src/core/cpcv.py:92-116 | with a non-negative embargo no training label window meets a tested session's, on either side, in any split |
| CpcvProperties.NeverLeaksIff | services/ml-pipeline/src/core/cpcv.py:92-116 | that holds of every design exactly when the embargo is non-negative, which the code does not check |
| CpcvProperties.NegativeEmbargoLeaks | services/ml-pipeline/src/core/cpcv.py:92 | every negative embargo has a design that leaks |
| CpcvRun.ScoreSplit | services/ml-pipeline/src/core/cpcv_run.py:56-75 | a fitted split supplies, for each group it tests, that group's rows with the model's scores |
| CpcvRun.StitchPath | services/ml-pipeline/src/core/cpcv_run.py:80-96 | a path is the concatenation of its groups' pieces, or nothing as soon as one is missing |
| CpcvRun.PathScoresEachRowOnce | services/ml-pipeline/src/core/cpcv_run.py:79-96 | a complete path scores every row of the dataset exactly once |
| CpcvRun.PathCompleteIffFitted | services/ml-pipeline/src/core/cpcv_run.py:88-98 | a path is skipped exactly when a split it names could not be fitted |
| CpcvRun.PathScoresOutOfSample | services/ml-pipeline/src/core/cpcv_run.py:55-96 | the model scoring a row was fitted on sessions more than the horizon away from it |
| WalkForward.PurgedWalkForward | services/ml-pipeline/src/core/splits.py:22-53 | rejects exactly the impossible sizes, and otherwise yields a fold for every block that fits at a stride of the step, or of the test size when the step is absent or zero; ends when the stride is positive or the loop is not entered |
| WalkForward.FoldsFromStarts | services/ml-pipeline/src/core/splits.py:45-52 | the m-th fold tests from the m-th start and every start fits the history |
| WalkForward.FoldsInFull | services/ml-pipeline/src/core/splits.py:45-52 | fold m tests the test_size sessions from train_size + m x stride on and trains on those of the train_size before them more than the gap away; no block that fits is left out |
| WalkForward.BlocksDisjointIff | services/ml-pipeline/src/core/splits.py:43-52 | test blocks never overlap exactly when the step is at least the block size or there is one block |
| WalkForward.FoldPurgedIff | services/ml-pipeline/src/core/splits.py:36-48 | every training label window closes before the test block exactly when the embargo is not negative |
| WalkForward.NegativeStepNeverEnds | services/ml-pipeline/src/core/splits.py:43-52 | with a negative step the loop guard, once true, is true after any number of iterations |
| Labels.ResolveIsFirstTouch | services/ml-pipeline/src/core/labels.py:115-137 | the scan finds the first bar that touches a barrier, the lower one first within a bar, else the vertical one, else nothing |
| Labels.FirstTouchUnique | services/ml-pipeline/src/core/labels.py:95-137 | that specification has one answer |
| Labels.TripleBarrierInFull | services/ml-pipeline/src/core/labels.py:79-137 | the label is the first touch of the close times one minus sl_mult x width and one plus pt_mult x width, width being the deviation of the trailing log returns times the root of the horizon; none exactly when that cannot be measured |
| Labels.TripleBarrierWindow | services/ml-pipeline/src/core/labels.py:95-137 | a decided label touches after the entry and within the horizon |
| Labels.TripleBarrierStable | services/ml-pipeline/src/core/labels.py:95-137 | a decided label depends on no bar after its touch |
| Labels.TripleBarrierRescaled | services/ml-pipeline/src/core/labels.py:79-137 | rescaling the whole history changes no label, for any logarithm |
| ExcessLabels.ResolveIsFirstExcess | services/ml-pipeline/src/core/labels.py:165-189 | the excess scan finds the first bar whose cumulative excess leaves the band, giving up at the first unusable bar |
| ExcessLabels.FirstExcessUnique | services/ml-pipeline/src/core/labels.py:140-189 | that specification has one answer |
| ExcessLabels.ExcessBarrierInFull | services/ml-pipeline/src/core/labels.py:140-189 | the label is the first exit of the cumulative excess from the band between -sl_mult x width and pt_mult x width, width being the deviation of the trailing daily excess times the root of the horizon |
| ExcessLabels.ExcessMeaning | services/ml-pipeline/src/core/labels.py:176-182 | the excess compared with the band is how much further the symbol's log price moved than the benchmark's |
| ExcessLabels.ExcessBarrierWindow | services/ml-pipeline/src/core/labels.py:140-189 | a decided excess label touches after the entry and within the horizon |
| ExcessLabels.ExcessBarrierStable | services/ml-pipeline/src/core/labels.py:140-189 | it depends on neither leg after its touch |
| ExcessLabels.ExcessBarrierRescaled | services/ml-pipeline/src/core/labels.py:140-189 | nor on the symbol's price unit |
| LabelWindows.TripleBarrierSuffix | services/ml-pipeline/src/core/labels.py:79-137 | dropping bars older than the volatility window changes no label but for its index |
| LabelWindows.ExcessBarrierWindowed | services/ml-pipeline/src/core/labels.py:140-189 | nor an excess label, in whatever unit the benchmark then stands |
| MarketPath.MarketLevels | services/ml-pipeline/src/core/market_path.py:50-107 | the level index compounds each session's median change over the eligible symbols, 1.0 at the first session |
| MarketPath.ProjectLevels | services/ml-pipeline/src/core/market_path.py:110-127 | the index on a symbol's own bars, carrying the last level over gaps |
| MarketIndex.LevelsInFull | services/ml-pipeline/src/core/market_path.py:50-107 | the index in terms of the bars: a level on exactly the sessions some symbol trades, one on the first, each next grown by the median log change of the universe members trading on both, when there are three |
| MarketIndex.ProjectionInFull | services/ml-pipeline/src/core/market_path.py:110-128 | each bar of a symbol gets the level of its last bar so far that has one, and one before the first |
| MarketPath.SortingIsIrrelevant | services/ml-pipeline/src/core/market_path.py:67-73 | sorting the bars first changes no session's close |
| MarketPath.LevelsCausal | services/ml-pipeline/src/core/market_path.py:50-107 | levels up to a date are a function of the closes up to it |
| PanelLabels.PanelLabelStable | services/ml-pipeline/src/core/market_path.py:50-127 | a decided excess label, benchmark and all, is unchanged by any bars of any symbols dated after its touch |
| PanelLabels.LevelsRescaled | services/ml-pipeline/src/core/market_path.py:50-107 | rescaling one symbol's history leaves the benchmark as it was |
| PanelLabels.PanelLabelRescaled | services/ml-pipeline/src/core/labels.py:140-189 | and that symbol's own excess labels |
| PanelWindows.LevelsOfWindows | services/ml-pipeline/src/core/market_path.py:50-107 | the index of windows of the panel, from a session they all still cover on, is the whole panel's in another unit |
| PanelWindows.PanelLabelWindowed | services/ml-pipeline/src/core/market_path.py:50-127 | excess labels on windows of the panel, benchmark rebuilt, are those on the whole of it when every bar dropped is older than the label's volatility window |
| Leakage.WalkForwardDoesNotLeak | services/ml-pipeline/src/core/splits.py:38-53 | in every fold the splitter returns, the label of each training session, absolute or excess, is resolved on a session strictly before the first tested one |
| Leakage.CpcvDoesNotLeak | services/ml-pipeline/src/core/cpcv.py:92-116 | the spans a training label and a tested label actually used share no session |
| Uniqueness.AverageUniqueness | services/ml-pipeline/src/core/uniqueness.py:27-48 | each row's weight is the mean, over the sessions from its first to its last, of one over the labels of the symbol open there |
| Uniqueness.WeightBounds | services/ml-pipeline/src/core/uniqueness.py:27-48 | every weight is in (0, 1], and is 1 exactly when no other label of the symbol is open on any of its sessions |
| Uniqueness.WeightInFull | services/ml-pipeline/src/core/uniqueness.py:27-48 | the weight in terms of the labels open on each session alone |
| Uniqueness.WeightsConserveCoverage | services/ml-pipeline/src/core/uniqueness.py:27-48 | number of sessions times weight, summed over the rows, is the number of distinct (symbol, session) pairs some label is open on |
| Uniqueness.EffectiveRowsBounds | services/ml-pipeline/src/core/uniqueness.py:51-53 | the effective rows never exceed the rows, and equal them exactly when no two labels overlap |
| Upsert.Deduplicate | services/market-data/src/core/storage.py:33-51 | one row per key, keeping the last value of each |
| Upsert.Table.Upsert | services/market-data/src/core/storage.py:120-146 | one statement, which may not name a key twice, writes its rows over the table |
| Upsert.Table.Save | services/market-data/src/core/storage.py:110-151 | deduplicating and writing in chunks leaves the table a row-by-row write leaves, and returns the number of distinct keys |
| Upsert.PutAllAt | services/market-data/src/core/storage.py:110-151 | a key reads as the last value the payload gives it, or as before |
| Upsert.SameLastSameTable | services/market-data/src/core/storage.py:33-51 | payloads that end on the same value per key write the same table |
| Upsert.PutAllIdempotent | services/market-data/src/core/storage.py:110-151 | saving twice equals saving once |
| MacroStore.SqlMacroStore.Save | services/macro-data/src/core/repository.py:92-126 | the same law over (series, period, vintage) keys |
| MacroStore.SqlMacroStore.AsOf | services/macro-data/src/core/repository.py:128-156 | a series is read exactly when some row of it had begun and been published by the day, and as the value of such a row that none such has a later period than, or the same period and a later vintage |
| MacroStore.ReadingIsPointInTime | services/macro-data/src/core/repository.py:128-156 | the maximal visible keys and the newest rows begun and published by the day give the same reading |
| MacroStore.SqlMacroStore.Panel | services/macro-data/src/core/repository.py:158-174 | every stored row exactly once, by period and then by vintage, an undated one without a date |
| MacroStore.ReadingUnique | services/macro-data/src/core/repository.py:128-156 | what a day reads as is determined by the rows visible on it |
| MacroStore.FirstIsNewest | services/macro-data/src/core/repository.py:140-156 | in scan order the first row of a series is its newest, whatever the collation |
| MacroService.RegimeOn | services/macro-data/src/core/service.py:69-84 | the regime of a day is the classification of the newest rows begun and published by it |
| MacroService.RegimeHistory | services/macro-data/src/core/service.py:86-136 | the one-pass sweep holds a day exactly when the newest rows begun and published by it classify, with that regime, and no other day; a range reaching the last date overflows |
| MacroService.CursorSeesVisible | services/macro-data/src/core/service.py:100-120 | the rows the cursor has passed by a day are exactly the dated ones begun and published by it |
| MacroService.HistoryRefinesQuery | services/macro-data/src/core/service.py:69-136 | the sweep's answer and the query's answer for a day are the same one |
| MacroService.RegimeOnUnique | services/macro-data/src/core/service.py:69-84 | a day has one answer |
| MacroService.LaterRowsChangeNothing | services/macro-data/src/core/service.py:69-136 | storing or restating a row published after the day, or about a period after it, changes no answer for the day |
| MacroService.UndatedRowVisibleAtTheEnd | services/macro-data/src/core/repository.py:220-227 | on the last date itself the store does read undated rows |
| Regime.SpreadMeaning | services/macro-data/src/core/fred_client.py:56-76 | a stored spread is kept, a missing one is the difference of its legs when both are there, nothing else changes |
| Regime.RegimeMeaning | services/macro-data/src/core/regime.py:34-72 | each regime's exact condition on the three readings and the thresholds, missing readings included |
| Regime.RegimeOfReadings | services/macro-data/src/core/service.py:76-84 | the regime of a reading is that of its curve, credit spread and PMI, the spreads stored or derived from their legs |
| Regime.WorseIsMilderIff | services/macro-data/src/core/regime.py:34-72 | worse inputs classify as milder in exactly one case: no PMI, a curve of exactly zero, a spread crossing the stress level |
| Incremental.DriftMeaning | services/market-data/src/core/incremental.py:101-134 | drift is reported exactly when some bar held on both sides carries an adjusted close on both and its stored factor, which is positive, is off by more than a ten-thousandth of itself, upwards or downwards |
| Incremental.DriftSeenIff | services/market-data/src/core/service.py:104-116 | when every stored bar is the provider's, what is read back misses none: a sync sees drift exactly when a stored bar from the window's start on moved |
| Incremental.FirstSyncConverges | services/market-data/src/core/service.py:78-139 | a first sync takes the provider's window as it is |
| Incremental.SyncConvergesIff | services/market-data/src/core/service.py:78-139 | one sync of a converged store converges exactly when nothing older than the overlap was rewritten or the drift check saw it |
| Incremental.VisibleDriftIsSeen | services/market-data/src/core/incremental.py:101-134 | one stored bar of the overlap whose factor moved that far, either way, and the sync repairs the whole history |
| Incremental.EverySyncConverges | services/market-data/src/core/service.py:78-139 | over any run of syncs of a provider that drops no bar and in which what changed is new, or recent, or shows as such a move on a stored bar of the overlap, however long the gaps, the store equals the provider from its oldest bar to now after each |
| Incremental.SyncInFull | services/market-data/src/core/service.py:78-139 | what one sync leaves, on any stored and provider bars: the provider's from where the window opens to now, the stored ones elsewhere; it opens the overlap back from the newest bar, or, when one of the newest bars read back there (ten more than were fetched) moved, the initial depth back or at the oldest |
| MarketService.SavedHistory | services/market-data/src/core/storage.py:110-151 | saving a fetched window merges it into its own series and touches no other |
| MarketService.MarketDataService.GetOhlcv | services/market-data/src/core/service.py:33-58 | cached or not, the answer for every limit of at least one is the newest bars of the series in the window, oldest first; entries stay suffixes of the table, and the window never shrinks |
| Incremental.ReadsNewest | services/market-data/src/core/service.py:33-58 | a read is the newest limit bars in the window, each as stored, every other one in it older |
| MarketService.MarketDataService.FetchAndStore | services/market-data/src/core/service.py:60-76 | the window is merged, the entry invalidated, and the event published when something was saved |
| MarketService.MarketDataService.SyncSymbol | services/market-data/src/core/service.py:78-139 | the stored series takes one step of the sync analysed in Incremental, every other series and entry as before, and the event published when something was saved |
| MarketService.MarketDataService.Expire | services/market-data/src/core/cache.py:23-36 | an expiry removes one entry and keeps the rest suffixes |
| MarketService.SuffixAnswers | services/market-data/src/core/service.py:41-47 | a cached suffix at least as long as the limit answers it as the table would |
| MarketService.SmallRestatementIsMissed | services/market-data/src/core/incremental.py:101-134 | a dividend below the tolerance leaves every bar older than the overlap on the old scale |
| Ledger.FillMovesEquity | services/execution/src/core/paper_broker.py:94-129 | a fill moves equity by exactly (quantity held before) x (fill price - last price) |
| Ledger.FilledInFull | services/execution/src/core/paper_broker.py:94-133 | what one fill does to cash, quantity, price and levels of its symbol, and that it does nothing to another |
| Ledger.RoundTripCostsSlippageTwice | services/execution/src/core/paper_broker.py:94-129 | buying and selling the same at the same price costs the slippage twice and leaves the quantity |
| Ledger.MarkMovesEquity | services/execution/src/core/paper_broker.py:135-143 | a mark moves equity by the re-pricing of the position |
| Ledger.RunAccounts | services/execution/src/core/paper_broker.py:94-143 | over every run, cash and each quantity are the signed sums of the fills applied, each id applied once, and the dedup set is exactly their ids |
| Ledger.PeakIsHighest | services/execution/src/core/paper_broker.py:126-142 | peak equity is the maximum equity ever reached |
| Ledger.RecordedIncreasingIff | services/execution/src/core/paper_broker.py:61-82 | recording keeps the curve's dates increasing exactly when the clock has not gone back |
| Ledger.RunCurve | services/execution/src/core/paper_broker.py:61-82 | under a monotone clock the curve has increasing dates, stays within its limit and ends at current equity |
| Ledger.CurveIsDayEnds | services/execution/src/core/paper_broker.py:61-82 | the curve is the day-end equities of the whole run, only the oldest beyond the limit forgotten |
| LedgerRuns.RunLevels | services/execution/src/core/paper_broker.py:110-124 | over every run a position's stop and target are those of the latest buy that carried one, unless a sale closed it since |
| LedgerRuns.RunDayBaseline | services/execution/src/core/paper_broker.py:84-89 | over every run the daily baseline is the equity just before the current day's first effective operation |
| PaperBroker.PaperBroker.constructor | services/execution/src/core/paper_broker.py:54-59 | a fresh broker is the opening ledger, its first point recorded |
| PaperBroker.PaperBroker.RecordEquity | services/execution/src/core/paper_broker.py:61-82 | replaces today's point or appends and trims from the front |
| PaperBroker.PaperBroker.RollDayIfNeeded | services/execution/src/core/paper_broker.py:84-89 | a new day's baseline is the equity it opens with |
| PaperBroker.PaperBroker.DoFill | services/execution/src/core/paper_broker.py:94-133 | steps the ledger by a fill; a duplicate id changes nothing and returns nothing |
| PaperBroker.PaperBroker.Mark | services/execution/src/core/paper_broker.py:135-143 | steps the ledger by a mark; a flat symbol is untouched |
| PaperBroker.PaperBroker.EquityValue | services/execution/src/core/paper_broker.py:164-174 | the property is cash plus the value of the positions, in whatever order they are visited |
| PaperBroker.PaperBroker.ProtectiveTrigger | services/execution/src/core/paper_broker.py:149-158 | no trigger exactly when flat or strictly inside the levels set; the stop wins over the target |
| PaperBroker.DrawdownIsFromTheTop | services/execution/src/core/paper_broker.py:176-193 | after any run the reported drawdown is measured from the highest equity of the run, and is zero exactly there |
| PaperBroker.PaperBroker.CurrentMetrics | services/execution/src/core/paper_broker.py:168-193 | value, exposure, drawdown and daily loss of the current ledger |
| PaperBroker.MetricsInFull | services/execution/src/core/paper_broker.py:168-193 | the four metrics from cash, positions, peak and day baseline |
| PaperBroker.PaperBroker.TakeSnapshot | services/execution/src/core/paper_broker.py:216-234 | a complete description of the state, the dedup set as a duplicate-free list |
| PaperBroker.PaperBroker.Restore | services/execution/src/core/paper_broker.py:236-257 | restoring a description of a state gives that state; absent fields of older layouts take their defaults |
| PaperBroker.SnapshotRoundTrip | services/execution/src/core/paper_broker.py:216-257 | a snapshot brings back the state it was taken from, on whatever day it is restored |
| PaperBroker.SnapshotDeterminesState | services/execution/src/core/paper_broker.py:216-257 | different states never share a snapshot |
| Execution.LongOnlyKeptIff | services/execution/src/core/service.py:81-98 | a non-negative book stays so exactly under sales, skips and orders whose signed quantity leaves the position non-negative |
| Execution.UnknownSideGoesShort | services/execution/src/core/service.py:82-97 | a side that is neither BUY nor SELL is sold uncapped: a fresh book goes short |
| Execution.SaleIsExit | services/execution/src/core/service.py:82-87 | a filled sale sells a positive quantity, no more than asked or held, and closes the position exactly when as much was asked |
| Execution.ExecutedInFull | services/execution/src/core/service.py:67-98 | an order written out from the request: when it is skipped, and otherwise quantity, cash, position and protective levels |
| Execution.EveryRunIsLongOnly | services/execution/src/core/service.py:67-221 | over every run of BUY and SELL orders, marks and liquidations with positive quantities, each handler run to its end, the book is never short, whatever the prices and costs |
| Execution.EveryRunIsHealthy | services/execution/src/core/service.py:67-221 | with positive prices and a slippage below one in size every open position is moreover marked above zero |
| Execution.MarkLeavesInsideOrFlat | services/execution/src/core/service.py:181-221 | after a mark a long position is unchanged but for the price and strictly between its stop and its target, or was sold at that price less slippage and is flat with neither |
| Execution.FillAllPositions | services/execution/src/core/service.py:135-170 | liquidation closes each position it names once and touches no other |
| Execution.FillAllMoney | services/execution/src/core/service.py:135-170 | it turns exposure into cash and costs exactly the slippage on it |
| Execution.FlattenLeavesNothingOpenIff | services/execution/src/core/service.py:147-153 | nothing is left open exactly when no open position was short or without a positive mark |
| Execution.FlattenCostsSlippage | services/execution/src/core/service.py:135-175 | flattening a healthy book leaves only cash and lowers equity by exactly slip x gross exposure |
| ExecutionService.ExecutionService.Execute | services/execution/src/core/service.py:67-120 | an order takes the execute step: a BUY sets the request's own stop and target where it carries them, and a sale that leaves nothing clears both; a skip touches nothing, a fill is saved, then announced as filled, then pushed |
| ExecutionService.AnnouncedIsBooked | services/execution/src/core/service.py:93-118 | what is announced of a fill is what the books show: quantity, cash and mark |
| ExecutionService.ExecutionService.FlattenAll | services/execution/src/core/service.py:135-175 | closes exactly the long positions with a positive mark, at the mark; announces every fill, then saves and pushes, or does nothing when none is open |
| ExecutionService.ExecutionService.MarkPosition | services/execution/src/core/service.py:181-197 | re-marks an open position at a known price, exits the whole of it exactly when a level is breached, announcing the fill at the exit price, then saves and pushes |
| ExecutionService.ExecutionService.MaybeProtectiveExit | services/execution/src/core/service.py:199-221 | sells the whole position at the marked price exactly when triggered |
| ExecutionService.ExecutionService.HandleCircuitBreaker | services/execution/src/core/service.py:122-133 | only the flatten action liquidates |
| ExecutionService.ExecutionService.RestoreState | services/execution/src/core/service.py:51-61 | no snapshot leaves the broker alone, one brings back the state it describes |
| Delivery.EachOrderAtMostOnce | services/execution/src/events/subscriber.py:47-58 | whatever is redelivered, fails or crashes: memory and the durable snapshot are the signed sums of fills with distinct ids, each a requested order on its own terms (side, symbol, price, quantity, and a BUY's own stop and target), each dedup set exactly the ids reflected |
| Delivery.LevelsAreRequested | services/execution/src/events/subscriber.py:47-58 | in every reachable state a position's stop is the stop, and its target the target, of the latest BUY request filled for the symbol that carried one |
| Delivery.AnnouncedFillsAreDurable | services/execution/src/core/service.py:106-111 | every fill execute announced is in the durable snapshot as announced, and no order is announced twice |
| Delivery.DurableOnlyGrows | services/execution/src/core/repository.py:37-49 | nothing durable is ever forgotten along a run |
| Delivery.EveryLedgerIsLawful | services/execution/src/core/paper_broker.py:236-257 | whatever crashes and restarts, the ledger in memory and the one a restart would restore are what an uninterrupted run makes of an opening ledger, so peak, curve and protective levels obey the laws of such runs |
| Acknowledgement.AckedOrdersAreKept | services/execution/src/events/subscriber.py:47-58 | if the process never dies between a failed save and the next save, each acknowledged order is on the books, in memory or in the snapshot a restart reads, or was a sale with nothing held; with no failed save open it is durable |
| Acknowledgement.SurvivingSaveFailureLosesOrder | services/execution/src/events/subscriber.py:55-58 | from any reachable state about to save an order for the first time with a delivery to spare, a save failure that is survived can end in the order acknowledged and lost |
| Acknowledgement.OrderAboutToBeSaved | services/execution/src/events/subscriber.py:47-58 | a single BUY order that may be delivered twice reaches such a state |
| Exits.ExitsHeldIff | services/execution/src/core/service.py:155-221 | over every run with fresh ids, each announced liquidation or protective exit is on the books exactly when no crash finds one filled and announced since the last save |
| Exits.CrashLosesLiquidation | services/execution/src/core/service.py:147-173 | from any reachable state whose book can be liquidated, filling and announcing the first sale and then crashing leaves an announced fill nothing reflects |
| Exits.CrashLosesProtectiveExit | services/execution/src/core/service.py:181-221 | so does a mark that triggers a protective exit |
| FlattenRace.LiquidationOfABuyIsLost | services/execution/src/core/service.py:135-173 | such a run from the start: one order bought, saved and acknowledged, its liquidation announced, a crash |
| FlattenRace.StepStaysLongIff | services/execution/src/core/service.py:81-170 | between crashes a step of the interleaved handlers keeps the book long-only exactly when the liquidation it fills is still held and the order it fills leaves the position non-negative |
| FlattenRace.FlattenSellsTwice | services/execution/src/core/service.py:142-170 | from any reachable state with two positions to close, a SELL of the second filled while the first sale is being announced is sold again by the flatten: the position ends short by its whole size |
| FlattenRace.FlattenGoesShort | services/execution/src/core/service.py:142-170 | such a run from the start, with two buys, one sell and one flatten |
| Backtest.RulePositions | services/backtest/src/core/rule_engine.py:53-79 | refuses a rule that needs a universe, else the position each bar's decision leaves |
| Backtest.LongIffLastActedBuy | services/backtest/src/core/rule_engine.py:66-79 | long exactly when the last answer that was not HOLD, the rule being shown the bar and up to 299 before it, was a BUY |
| Backtest.PositionsCausal | services/backtest/src/core/rule_engine.py:66-79 | positions on a prefix of the bars are a prefix of those on all |
| Backtest.TrimmedHistoryAgrees | services/backtest/src/core/rule_engine.py:69-79 | dropping the oldest bars changes nothing from the first full-window decision that is not HOLD |
| Backtest.ReturnsCausal | services/backtest/src/core/engine.py:77-83 | strategy returns and trades on a prefix are a prefix of those on all |
| Backtest.EarnedAfterDecided | services/backtest/src/core/engine.py:77-83 | returns up to a bar depend on nothing decided at that bar or later |
| Backtest.BuyAndHoldEarnsThePriceRatio | services/backtest/src/core/engine.py:77-92 | holding throughout earns exactly the price ratio over the scored bars at any cost, less one turn when the first bar of all is scored |
| Backtest.FlatEarnsNothing | services/backtest/src/core/engine.py:77-92 | staying flat earns nothing and trades nothing, at any cost |
| Backtest.ScoreSplits | services/backtest/src/core/engine.py:59-107 | the bars before f and the bars from f make up the whole: growth multiplies, trades and bars add, the curve continues, for every start and split |
| Backtest.ScoreInFull | services/backtest/src/core/engine.py:59-107 | a score written out: from the first bar scored each point of the curve grows by position x price change less the turn's cost, and the trades are the position changes |
| Backtest.RunRuleBacktest | services/backtest/src/core/rule_engine.py:82-109 | refused exactly when a rule that needs a universe meets two bars or more; otherwise scored, over as many bars as follow the start, the curve one point a bar |
| Backtest.BacktestSplits | services/backtest/src/core/rule_engine.py:82-109 | a backtest stopped after f bars and one measured from f on make up the whole |
| Backtest.MaxDrawdownIsWorstDrop | services/backtest/src/core/engine.py:97-98 | on a positive curve the running-maximum form is the largest loss from any point to a later one |
| Backtest.CurveStartsAfterFirstReturn | services/backtest/src/core/engine.py:38-42 | the scored curve starts at one plus the first scored return, and the drawdown is taken over that curve alone |
| Backtest.CapitalCountedIffFirstGain | services/backtest/src/core/engine.py:91-98 | every solvent continuation of a path reports its drawdown from the starting capital on exactly when the first scored return is not a loss |
| Backtest.HalvingIsNoDrawdown | services/backtest/src/core/engine.py:91-98 | a price that halves once while held: a total return of -0.5 beside a reported drawdown of 0, where the loss from the capital is 0.5 |
| Fundamentals.AnnualByPeriod | services/fundamental-data/src/core/edgar_client.py:217-242 | the loop keeps per period what the fold of first filings keeps |
| Fundamentals.FirstFilingMeaning | services/fundamental-data/src/core/edgar_client.py:217-242 | a period is there exactly when an annual fact reports it, with the value and date of a fact no other is dated before |
| Fundamentals.OrderIsIrrelevantIff | services/fundamental-data/src/core/edgar_client.py:217-242 | every order of the observations keeps the same filings exactly when, for each period, all the facts filed first carry one value |
| Fundamentals.LaterFilingsChangeNothing | services/fundamental-data/src/core/edgar_client.py:234-241 | later filings change no value that was dated |
| Fundamentals.MergeCandidates | services/fundamental-data/src/core/edgar_client.py:245-259 | the loop over candidate concepts is the preference merge |
| Fundamentals.FieldValuesMeaning | services/fundamental-data/src/core/edgar_client.py:245-259 | a field's value is that of the first candidate reporting the period, and exists when any does |
| Fundamentals.FieldIsFiled | services/fundamental-data/src/core/edgar_client.py:217-259 | the same from the facts themselves: reported exactly when a candidate has an annual fact about the period, with the value and date of the earliest such fact of the first such candidate |
| Fundamentals.StatementFiledAt | services/fundamental-data/src/core/edgar_client.py:83-106 | the midnight of the last populated field's filing date, and nothing exactly when there is no such date |
| Fundamentals.LatestStatements | services/fundamental-data/src/core/edgar_client.py:291-325 | the latest count periods any field reports, newest first; each statement has a field exactly when some candidate concept has an annual fact about its period, at the value first filed of the first such concept, and the midnight of the last of those filings |
| Fundamentals.StatementIsOf | services/fundamental-data/src/core/edgar_client.py:291-325 | which fields a statement carries, which filing each value is from, and the day it could be known |
| Fundamentals.SqlFundamentalsStore.Save | services/fundamental-data/src/core/repository.py:96-103 | merging row by row is the key-by-key write, and the count is the statements given |
| Fundamentals.SqlFundamentalsStore.AvailableBefore | services/fundamental-data/src/core/repository.py:105-125 | a stored dated statement filed strictly before the cutoff that no other such is filed after, or that day about a later period; and nothing exactly when there is none |
| Fundamentals.RowsWereSaved | services/fundamental-data/src/core/repository.py:96-103 | a row holds, whole, one of the statements ever saved under its key |
| Fundamentals.LastSavedWins | services/fundamental-data/src/core/repository.py:96-103 | the last statement saved of its symbol, period and fiscal label is in the table, whatever was saved of others |
| Fundamentals.NoLookAhead | services/fundamental-data/src/core/repository.py:105-125 | after any saves of assembled statements, every filed value an as-of read can return is that of the first filing of the first concept reporting it, made strictly before the cutoff |
| InferenceLog.InferenceLog.Append | services/ml-pipeline/src/core/inference_log.py:61-65 | appends to one model's bounded deque, evicting the oldest, and touches no other |
| InferenceLog.InferenceLog.ListPending | services/ml-pipeline/src/core/inference_log.py:88-94 | the pending votes of the model, in order |
| InferenceLog.PendingAmongMeaning | services/ml-pipeline/src/core/inference_log.py:88-94 | exactly the unresolved BUY and SELL records, each as often as it is logged |
| InferenceLog.AppendAllKeepsNewest | services/ml-pipeline/src/core/inference_log.py:61-65 | the log is the newest maxlen of everything ever appended |
| InferenceLog.VoteIsRetained | services/ml-pipeline/src/core/inference_log.py:32-39 | a vote is still held after any number of further sessions short of twice the horizon, at most universe votes each |
| InferenceLog.OldVotesAreEvicted | services/ml-pipeline/src/core/inference_log.py:20-39 | once maxlen later votes have come, nothing older is left |
| Outcomes.EntryIndex | services/ml-pipeline/src/core/outcomes.py:126-131 | the last of the leading bars dated no later than the vote |
| Outcomes.ResolveOne | services/ml-pipeline/src/core/outcomes.py:119-170 | a vote is decided, dropped or kept by its verdict, and the signed return is returned when decided |
| Outcomes.VerdictInFull | services/ml-pipeline/src/core/outcomes.py:119-170 | decided exactly when the label at the entry bar is: with the label, the return to the touch signed by the side, and whether they agree; else given up once older than the limit |
| Outcomes.VerdictSettles | services/ml-pipeline/src/core/outcomes.py:119-170 | what is written to the record is that: resolved with all four, resolved with nothing, or as it was |
| Outcomes.DecisionMeaning | services/ml-pipeline/src/core/outcomes.py:164-170 | a decided vote is paid exactly when the price went its way by the touch, and is correct when the label agrees with its side |
| Outcomes.ResolvePending | services/ml-pipeline/src/core/outcomes.py:77-117 | every pending vote meets its label: decided from its entry bar by the first exit from barriers of width deviation x root of the horizon, with the signed return to the touch; given up once older than the limit, else kept; no resolved record changes |
| Outcomes.VoteReachesItsLabel | services/ml-pipeline/src/core/labels.py:31-40 | while the horizon's sessions go by, taking no more than three times their average days, a vote is neither evicted from the log nor resolved without a label |
| VoteBenchmark.ThinPanelIsFlat | services/ml-pipeline/src/core/market_path.py:88-97 | with fewer than three symbols pending every level is 1: the excess label is the symbol's own return |
| VoteBenchmark.OppositeVerdicts | services/ml-pipeline/src/core/outcomes.py:83-98 | a market on which a vote is resolved down with one queue and up once another symbol's votes have left it |
| VoteBenchmark.QueueMattersIff | services/ml-pipeline/src/core/outcomes.py:83-98 | the rest of the queue changes no excess verdict of a symbol, on any market, exactly when the pending symbols are the same in both runs or fewer than three in each |
| OutcomeWindows.RunVerdict | services/ml-pipeline/src/core/outcomes.py:83-110 | what a run gives a vote is the verdict on the latest sigma window + horizon + 60 bars of each symbol pending at that run |
| OutcomeWindows.AbsoluteReadsAsWhole | services/ml-pipeline/src/core/outcomes.py:46-49 | under the absolute label that verdict is the one the whole history gives, or none; it falls short exactly when the history decides and 60 or more bars have come since the vote's window closed |
| OutcomeWindows.ExcessReadsAsWhole | services/ml-pipeline/src/core/outcomes.py:83-98 | so it is under the excess label for the symbols pending at that run, the benchmark rebuilt from what is read of them, when no other of them has more bars since the vote's volatility window began than a run reads |
| OutcomeWindows.DecisionStandsInMargin | services/ml-pipeline/src/core/outcomes.py:83-170 | a vote decided by one run is decided the same by a later one on the bars it then reads, exactly until 60 bars past the window; from then on it is not decided at all |
| OutcomeWindows.ExcessDecisionStandsInMargin | services/ml-pipeline/src/core/outcomes.py:83-170 | the same under the excess label when both runs have the same symbols pending, every bar any of them gains is dated after the touch and the others' windows reach |

## Left out

- Floating-point rounding, NaN and infinities: arithmetic is exact, so a zero price, a one-observation deviation or a tie
  broken by rounding is not represented.
- Summary statistics of return series: Sharpe and deflated Sharpe, information coefficients, Newey-West errors, path
  dispersion, sample sizes. Each is a closed formula over a series the model does produce.
- Grouping rows by date ahead of the portfolio code: sessions are given as their rows, in date order.
- PortfolioBooks.TopQuantilePortfolio: stops at the series of returns, turnovers and counts, because the summary statistics over them are closed formulas.
- The final date sort inside a CPCV run, and the metrics computed on the stitched path.
- Negative session indices, negative counts and negative SQL limits, which Python and the database read in their own ways.
- MarketPath.MarketLevels: does not model the counter of thin sessions and its log line.
- The created-at columns, sessions and dialects of the databases; a table is a map and a statement is one step.
- MarketService.MarketDataService.SyncSymbol: handlers are one step each, so a read that races a sync between its query and its cache write is not represented, and neither is a failing provider.
- PaperBroker.PaperBroker.DoFill: the clock is read once per operation, so an operation that straddles midnight is not represented.
- PaperBroker.PaperBroker.TakeSnapshot: the dedup list is in any order, and a level that is absent is the same as one that is null.
- ExecutionService.ExecutionService.FlattenAll: visits the positions in any order, while the source visits them in insertion order; generated ids are assumed never to repeat.
- Delivery.AnnouncedFillsAreDurable: is about requested orders; what holds of liquidations and protective exits, announced before they are saved, is Exits.ExitsHeldIff.
- Corrupt snapshots and the repository without Redis, where nothing is durable; taking a snapshot and writing it is one step.
- Orders whose event id imitates a generated one: the two kinds of id are kept apart by construction.
- Fundamentals.LatestStatements: the concept map is a parameter, symbols are taken as already upper-case, and a malformed period end, at which the source raises, is not represented.
- Fundamentals.NoLookAhead: is about the filed values, not the score derived from the year before.
- OutcomeWindows.ExcessReadsAsWhole: when another symbol has more bars since the volatility window began than a run reads, its part of the benchmark is cut short, and whether that moves a label depends on the prices.
- Outcomes.ResolvePending: the market service's answer is a parameter and the pending votes are listed once, so votes appended while the run awaits an answer are not represented.
- HTTP routes, among them the one that places an order beside the order handler, and clients, configuration, publishers beyond the order of their effects, observability, scripts, the dashboard.
- Torch, LightGBM and MLflow code and the studies built on it; feature computation and the registered strategy rules, which are abstract functions here.
- Vintage slicing of the macro download, promotion gates, data contracts, classifiers and score tables: flat conditions one reading settles.
- Risk management, strategy, aggregation, universe and notification services.
