# Verified model of the prediction-market trading engine

The project models three groups of components and proves what each promises and what they promise
together. Quantities that the program keeps as 64-bit floats are `real` here.

1. **Market graph** (`Propagation`, `PathSums`, `PathCounts`, `PathReach`, `TaskBalance`, `GraphTypes`, `EdgeWeights`,
   `MarketGraph`, `GraphTheorems`, `GraphReports`, `GraphExamples`): the keyed directed graph, its snapshots, and
   the depth-limited, damped, thresholded breadth-first propagation without a visited set. `Propagation.Drain` is
   the exact meaning of the queue loop, clamps included; the engine class is proved to compute it, and the
   theorems are about it.
2. **Capital loop** (`Allocator`, `AllocatorTheorems`, `AllocatorTies`, `AllocatorScores`, `Optimizer`, `CostModel`,
   `RiskLedger`, `RiskGates`, `RiskEngine`, `ExecutionSim`, `PortfolioLedger`, `PriceMoves`, `PortfolioEngine`,
   `OmsLedger`, `Oms`, `CapitalLoop`): signals are deduplicated, ranked and funded, checked against exposure
   limits, executed, and booked. A `...Ledger` module holds a component's state as a value with every running sum
   derived; the class of the same component keeps the sums incrementally, as the program does, and each method
   is proved to keep them equal.
3. **Statistics** (`JointHistory`, `Discovery`, `DiscoveryPrices`, `Correlation`, `Ranking`, `Embedding`, `Direction`,
   `MutualInformation`, `Relationship`, `Announcements`, `Scoring`, `Buckets`, `Calibration`, `Drawdown`,
   `TickRisk`, `Analytics`): rolling windows, dirty-flag pairing, correlation and rank kernels, calibration buckets
   and drawdown tracking, each incremental or fast form against a simple definition.

The functions a component computes with (`Drifted`, `Raev`, `Pnl`, `Drawdown`, `SubmitReport` and their like) are pinned
by theorems in the figures of the input alone: `FullPassSettles`, `GrantsByMerit`, `PriceMovesEquity`,
`ApprovalMeans`, `SubmissionReported` and their neighbours in the table.

`Sums`, `Lex`, `Wrappers` and `Common` hold sums over maps, string order, `Option`/`Result` and the messages
that travel between components.

## How the program's surroundings appear

- Clock values, random draws, exchange answers, and the exponential latency and time
  decay factors are inputs. `sqrt` is any function with a non-negative root,
  `ln` any function that turns products into sums and stays strictly below x - 1 except at 1.
- Iteration over a hash map visits keys in an arbitrary order; every statement holds for all orders.
- The library sorts are modelled by insertion, with the order and the content they leave.
- Each event handler is one atomic step.

## Where the code and its own words differ

- The allocator's comment calls its output deterministic. The ranking is determined exactly when no two markets
  tie for their best score (`RankingDeterminedIff`); the output exactly when in each tier of equal scores at most
  one market would receive anything (`OutputDeterminedIff`). `TieChangesAllocation` is a batch where a tie
  decides who is funded.
- The propagation comment's O(local_edges x max_depth) is not a bound: nodes are revisited along cycles and
  diamonds, and `EdgesTimesDepthExceeded` is a pass that exceeds edges x depth. `PassIterations` gives the bound
  that holds, `PassExactWork` the exact number when no clamp can fire.
- `old_implied_prob` is documented as the value before the pass. It is exactly for markets that are no seeds
  (`OldBeforePassIff`); `SeedReportedReset` is a cycle whose seed is reported with the value it was reset to.
- `nodes_updated` is documented as the number of markets whose value changed. It counts the markets that messages
  arrive at (`ReportedIff`). Those reported where they were seeded are the ones whose messages cancel
  (`ReportedUnmovedIff`; `OrderMatters` is an instance), `ChangedIff` says which markets change, and a seed that
  no message arrives at changes without being reported (`SeedUnreported`).
- `converged` is documented as false when the depth limit cut off further propagation. It is false as soon as a
  message arrives at the limit (`ConvergedIff`), even at a market without dependents (`NothingCutOff`).
- `total_filled` can miss a filled order: `FilledUncountedIff` gives the exact condition over whole runs,
  `FilledButUncounted` a run. `total_cancelled` and `total_rejected` miss exactly the orders that a poll reports as
  such (`EndedUncountedIff`).
- A poll can turn an exchange-reported Cancelled, Rejected or Expired back into a partial fill
  (`PollOverridesFinal`); finality holds from the end of a step on (`FinalForever`).
- `edge_ttl_secs` does not space the announcements of a pair over whole runs. Eviction drops the stamp with the
  joint entry: a pair can be announced again after any number of seconds, whatever `edge_ttl_secs` and
  `market_ttl_secs` are (`EvictionForgets`). A backward clock jump is let through, although the comment on the gate says
  it counts as "not yet expired" (`GateExact`). `AnnouncedIff` and `SpacingIff` are the exact conditions.
- The tracked maximum drawdown is the worst fall between any two moments only while no equity below zero follows a
  positive one, or a deepest such fall starts from the only positive level so far (`WorstFallIff`).
- `crates/performance_analytics/src/types.rs:69-71` places max_drawdown in the history window; the engine tracks it
  over its whole lifetime (engine.rs:30-36). `LifetimeAgainstWindow` says exactly when that is the same while
  equity is never below zero, `FallOutlivesWindow` and `WindowReportsMore` show both ways in which it is not.

## Model

| member | source | states |
|---|---|---|
| PathSums.PassIsWalkSum | crates/market_graph/src/engine.rs:353-462 | main theorem: when no node can be pushed past 0 or 1 by the sum of the absolute messages, the queue loop ends with each node at its value after seeding plus the sum, over all walks of 1..max_depth edges from the seeds whose every message passes the threshold, of the damped weighted deltas |
| GraphTheorems.PassPathSum | crates/market_graph/src/engine.rs:337-502 | the same for a propagation pass on the engine's own graph: the final implied_prob of every node in terms of walks only |
| GraphTheorems.PassDeterministic | crates/market_graph/src/engine.rs:337-462 | when no clamp can fire, two passes over the same graph agree on every node, however the seeds are queued and however the edges are listed |
| GraphExamples.OrderMatters | crates/market_graph/src/engine.rs:375-462 | without that guard it is false: one well-formed graph, one configuration, two seedings of a full pass that differ only in the order of the id lookup, and two outcomes; one of them reports a market that ends where it started |
| PathSums.DrainSums | crates/market_graph/src/engine.rs:408-462 | with room for all messages, draining the queue adds to every node exactly the inflow of the queued tasks |
| PathSums.InflowIsWalkSum | crates/market_graph/src/engine.rs:408-462 | the message tree below one task sums to the walks that fit in its remaining depth |
| PathSums.WalkMessageClosedForm | crates/market_graph/src/engine.rs:421-460 | the message at the end of a walk is the seed delta times the product of its effective weights times damping to its length |
| PathSums.WalksComplete | crates/market_graph/src/engine.rs:353-462 | the walks summed over are exactly the paths of 1..k edges, revisiting allowed |
| PathSums.WalksDistinct | crates/market_graph/src/engine.rs:353-462 | no walk is counted twice, because an ordered pair has at most one edge |
| PathSums.DrainOrderIrrelevant | crates/market_graph/src/engine.rs:408-462 | two drains over permuted edges and permuted queues give the same values when no clamp can fire |
| Propagation.IterationBound | crates/market_graph/src/engine.rs:408-412 | the loop ends on every graph, cycles included, after at most one full message tree of tasks per queued task |
| Propagation.SeedLoad | crates/market_graph/src/engine.rs:350-412 | for S seeds at depth 0 and largest out-degree B that bound is S times 1+B+...+B^(max_depth-1) |
| GraphTheorems.PassIterations | crates/market_graph/src/engine.rs:495-502 | `iterations` of the result is at most S times 1+B+...+B^(max_depth-1) |
| PathCounts.PassIsWalkCount | crates/market_graph/src/engine.rs:401-462 | when no clamp can fire, the loop processes exactly one task per walk of 0..max_depth-1 edges from a seed whose every message passes the threshold |
| GraphTheorems.PassExactWork | crates/market_graph/src/engine.rs:495-502 | the same for the `iterations` a pass on the engine's graph reports |
| PathCounts.DrainVisits | crates/market_graph/src/engine.rs:408-462 | with room for all messages the loop processes exactly the tasks of the queued message trees |
| PathCounts.VisitsAreWalks | crates/market_graph/src/engine.rs:408-462 | the tasks below a task are the empty walk and the passing walks one edge short of its remaining depth |
| PathCounts.BoundReached | crates/market_graph/src/engine.rs:408-462 | the tree bound is reached with equality where every node has B arcs of full weight and every message passes |
| PathCounts.HalvingRoom | crates/market_graph/src/engine.rs:421-437 | a guard a caller can check: with damping at most 1/(2B), room for the seed's own change at every node means no clamp can fire |
| GraphExamples.EdgesTimesDepthExceeded | crates/market_graph/src/engine.rs:408-462 | a well-formed graph of 6 edges whose pass at max_depth 6 takes 63 tasks: more than edges x depth, and exactly the tree bound |
| GraphTheorems.PassExists | crates/market_graph/src/engine.rs:337-502 | every seeding has an outcome: some graph and some report |
| Propagation.EveryTaskAttenuated | crates/market_graph/src/engine.rs:421-460 | at every turn of the loop a queued task at depth d carries at most |damping|^d times the largest seed delta |
| GraphTheorems.PassAttenuates | crates/market_graph/src/engine.rs:401-462 | the same on the engine's graph, with the decayed effective weights at most 1 in size |
| GraphTheorems.EffectiveWeightsBounded | crates/market_graph/src/types.rs:203-214 | every effective weight of a well-formed graph lies in [-1, 1], provided every decay factor lies in [0, 1] (an edge with a half-life that is dated after the current time has a larger factor) |
| Propagation.Converges | crates/market_graph/src/engine.rs:408-419 | when the attenuated bound at the depth limit is below the threshold no task is ever dropped |
| GraphTheorems.PassConverges | crates/market_graph/src/engine.rs:495-498 | `converged` is true whenever max_depth >= 1 and |damping|^max_depth times the largest seed delta is below the threshold |
| Propagation.DrainRecords | crates/market_graph/src/engine.rs:440-447 | the loop's record keeps, per touched node, the value before its first message and its final value, and values never leave [0, 1] |
| GraphTheorems.PassRecord | crates/market_graph/src/engine.rs:464-501 | node_changes has one record per market, old = value before the first message (the reset value for a seed), new = final value; every node that changed after seeding is reported |
| GraphReports.OldBeforePassIff | crates/market_graph/src/types.rs:280-289 | old_implied_prob is the value before the pass exactly for the markets that are no seeds; a seed is reported with the price it was reset to |
| GraphExamples.SeedReportedReset | crates/market_graph/src/engine.rs:394-447 | a well-formed cycle whose pass reports its own seed with the reset value 0.5 as the old one; before the pass it stood at 0.25 |
| GraphReports.ReportedIff | crates/market_graph/src/types.rs:292-296 | when no clamp can fire, exactly those markets are reported at which a walk of 1..max_depth edges from a seed ends whose every message passes |
| GraphReports.ReportedUnmovedIff | crates/market_graph/src/types.rs:292-296 | such a market is reported at the value it was seeded with if and only if its sum over walks is 0 |
| GraphReports.ChangedIff | crates/market_graph/src/types.rs:292-296 | a market changes over the whole pass if and only if its own drift as a seed and its sum over walks do not cancel |
| GraphReports.SeedUnreported | crates/market_graph/src/engine.rs:353-392 | a seed that no message arrives at changes, by being reset, and is not reported |
| GraphReports.FullPassSettles | crates/market_graph/src/engine.rs:375-462 | after a full pass every market that is not reported stands within change_threshold of its price, from above and from below |
| TaskBalance.DrainBalance | crates/market_graph/src/engine.rs:408-462 | every task carries the change its message made, clamped or not: over the loop a node gains the deltas of the tasks popped for it, less those it was queued with |
| Sums.ClampCuts | crates/market_graph/src/engine.rs:421-437 | a value beyond a bound is cut to that bound |
| EdgeWeights.HalfLifeHalves | crates/market_graph/src/types.rs:203-214 | each half-life in days that passes halves what an edge transmits |
| EdgeWeights.AgelessKeepsWeight | crates/market_graph/src/types.rs:203-214 | an edge without a positive half-life never ages, and with full confidence transmits exactly its weight |
| EdgeWeights.ConfidenceScales | crates/market_graph/src/types.rs:203-214 | confidence and weight count in proportion at every age |
| EdgeWeights.FreshEdge | crates/market_graph/src/types.rs:203-214 | an edge created just now transmits its weight times its confidence |
| PathReach.DrainSends | crates/market_graph/src/engine.rs:408-462 | with room for all messages, a drain writes to exactly the nodes the queued message trees reach and drops a task exactly when one of them reaches the depth limit |
| PathReach.WalkSends | crates/market_graph/src/engine.rs:408-462 | a walk that fits and whose every message passes leads to a task of the tree |
| PathReach.SendsWalk | crates/market_graph/src/engine.rs:408-462 | every task of the tree is the end of such a walk |
| PathReach.PassReaches | crates/market_graph/src/engine.rs:401-462 | for a pass: the nodes written to are the ends of the passing walks of 1..max_depth edges, and the limit is met exactly when one has max_depth edges |
| GraphReports.ConvergedIff | crates/market_graph/src/types.rs:299-301 | when no clamp can fire, `converged` is false if and only if some walk of exactly max_depth edges from a seed has every message pass |
| GraphExamples.NothingCutOff | crates/market_graph/src/types.rs:299-301 | a graph whose pass at max_depth 1 is reported as cut off although at every larger limit it converges, to the same graph |
| Propagation.DrainFrame | crates/market_graph/src/engine.rs:408-462 | a node out of reach of every queued task within its remaining depth is neither changed nor recorded |
| GraphTheorems.PassFrame | crates/market_graph/src/engine.rs:337-502 | a node that is no seed and not 1..max_depth edges from one keeps its whole record and is not reported |
| GraphTheorems.PassKeepsGraph | crates/market_graph/src/engine.rs:337-502 | a pass touches neither topology nor any field but implied_prob, and probabilities stay in [0, 1] |
| MarketGraph.MarketGraphEngine.constructor | crates/market_graph/src/engine.rs:103-111 | a new graph is empty and well formed |
| MarketGraph.MarketGraphEngine.AddMarket | crates/market_graph/src/engine.rs:117-133 | upsert: exactly one market changes, an update keeps implied_prob and our_position; the id index stays a bijection with the live nodes |
| MarketGraph.MarketGraphEngine.RemoveMarket | crates/market_graph/src/engine.rs:139-144 | removes the market and exactly the edges naming it; an unknown id is an error without effect |
| MarketGraph.MarketGraphEngine.AddDependency | crates/market_graph/src/engine.rs:184-209 | error cases in order; otherwise the pair has exactly this one edge, an update keeps created_at and the half-life |
| MarketGraph.MarketGraphEngine.RemoveDependency | crates/market_graph/src/engine.rs:212-222 | removes exactly the pair's edge, with the error of the first missing thing |
| MarketGraph.MarketGraphEngine.UpdateMarketProb | crates/market_graph/src/engine.rs:229-244 | sets one current_prob and returns the signed change; refuses prices outside [0, 1] and unknown markets without effect |
| MarketGraph.MarketGraphEngine.CollectDrifted | crates/market_graph/src/engine.rs:375-392 | the seeds of a full pass are exactly the drifted nodes, each once, with their deviation, at depth 0 |
| MarketGraph.MarketGraphEngine.Propagate | crates/market_graph/src/engine.rs:337-502 | the whole pass: error and no-op cases, and otherwise the state and result of seeding followed by the queue loop |
| MarketGraph.MarketGraphEngine.DrainQueue | crates/market_graph/src/engine.rs:401-462 | the queue loop computes `Drain` and ends |
| MarketGraph.MarketGraphEngine.SendMessage | crates/market_graph/src/engine.rs:421-460 | one message: threshold, clamp, second threshold, record and queue exactly as `DeliverArc` |
| MarketGraph.MarketGraphEngine.ReportChanges | crates/market_graph/src/engine.rs:464-493 | one record per touched node, in arbitrary order |
| MarketGraph.MarketGraphEngine.UpdateAndPropagate | crates/market_graph/src/engine.rs:250-267 | a price change below change_threshold updates without propagating, otherwise a pass from that market follows |
| MarketGraph.MarketGraphEngine.BatchUpdateAndPropagate | crates/market_graph/src/engine.rs:273-281 | updates apply in order up to the first refused one (which leaves the earlier ones applied), then one full pass |
| MarketGraph.MarketGraphEngine.ToSnapshot | crates/market_graph/src/engine.rs:608-626 | the snapshot lists every node once, every edge once, and the configuration |
| MarketGraph.FromSnapshot | crates/market_graph/src/engine.rs:631-658 | loading succeeds exactly when every edge names known markets and is in range; the result holds the last node per id and the last edge per pair; otherwise the error is that of the first bad edge |
| MarketGraph.SnapshotRebuilds | crates/market_graph/src/engine.rs:608-658 | a snapshot of a well-formed graph is loadable and holds exactly its nodes, edges and configuration |
| MarketGraph.RoundTrip | crates/market_graph/src/engine.rs:608-658 | from_snapshot(to_snapshot(g)) succeeds with the same markets, edges with all metadata, and configuration |
| MarketGraph.RemoveNode | crates/market_graph/src/engine.rs:139-144 | taking out a node keeps ids a bijection with live nodes, one edge per ordered pair, edge ids naming endpoints, weights in range |
| GraphTypes.EdgeUnique | crates/market_graph/src/engine.rs:184-209 | a well-formed graph has at most one edge per ordered pair of ids |
| MarketGraph.EdgeCount | crates/market_graph/src/engine.rs:184-209 | no two stored edges are equal |
| PortfolioLedger.RunKeepsBook | crates/portfolio_engine/src/engine.rs:79-341 | over any run of fills, marks, trims and expiries: cash + open sizes = initial bankroll, cash >= 0, every unrealized_pnl is 0 or the exact mark for the current size |
| PortfolioLedger.ExecutionKeeps | crates/portfolio_engine/src/engine.rs:244-265 | one execution event (fill, then trim) keeps that invariant |
| PortfolioLedger.TrimKeeps | crates/portfolio_engine/src/engine.rs:180-197 | trimming only ever touches the position just opened, so no mark becomes inexact |
| PortfolioLedger.ExpireKeeps | crates/portfolio_engine/src/engine.rs:306-341 | TTL expiry keeps the invariant and leaves total equity exactly unchanged |
| PortfolioLedger.ExecutionEquity | crates/portfolio_engine/src/engine.rs:79-147 | a filled execution moves equity exactly as marking the market to the trade's price would; an unfilled one not at all |
| PortfolioLedger.AttributionComplete | crates/portfolio_engine/src/engine.rs:86-105 | total realized PnL = sum of pnl_by_source + PnL closed with an empty source |
| PortfolioLedger.CloseOutSums | crates/portfolio_engine/src/engine.rs:86-105 | closing a position moves its size, its unrealized and its realized PnL between the three sums |
| PriceMoves.MarkMoves | crates/portfolio_engine/src/engine.rs:154-172 | from one mark to another the unrealised PnL moves by the price move times the size, with the market for Buy and Arbitrage, against it for Sell; at the entry price it is zero |
| PriceMoves.PriceMovesEquity | crates/portfolio_engine/src/engine.rs:154-172 | when a held market moves, total equity moves by that amount, whatever else is held; a market that is not held moves nothing |
| PriceMoves.ReplacementRealises | crates/portfolio_engine/src/engine.rs:88-106 | a filled execution realises on the position it replaces the move from its entry price to the market price of the trade, for the strategy that opened it |
| PriceMoves.OpenedAtExecution | crates/portfolio_engine/src/engine.rs:121-134 | the new position has the trade's market, side and source at the execution's price: marked there it has gained nothing |
| PortfolioEngine.PortfolioState.constructor | crates/portfolio_engine/src/state.rs:50-60 | a new portfolio is all cash, and in order for a bankroll that is not negative |
| PortfolioEngine.PortfolioState.TotalEquity | crates/portfolio_engine/src/state.rs:62-65 | the running sums give bankroll + closed PnL + sum of open unrealized PnL |
| PortfolioEngine.PortfolioState.ApplyExecution | crates/portfolio_engine/src/engine.rs:79-147 | the incremental fields equal the sums over the map after a fill, with the cash clamp |
| PortfolioEngine.PortfolioState.RecalculateUnrealized | crates/portfolio_engine/src/engine.rs:154-173 | re-marking in any order gives the marked book and the exact total, and keeps the book in order |
| PortfolioEngine.PortfolioState.ApplyRiskAdjustments | crates/portfolio_engine/src/engine.rs:180-197 | every oversized position is cut to the cap and the excess is in cash |
| PortfolioEngine.PortfolioState.HandleExecution | crates/portfolio_engine/src/engine.rs:353-368 | one execution event is a fill followed by the trim, and keeps the book in order |
| PortfolioEngine.PortfolioState.ExpirePositions | crates/portfolio_engine/src/engine.rs:306-341 | exactly the positions at least ttl old are closed at their last mark, and the book stays in order |
| PortfolioEngine.PortfolioState.ToPortfolioUpdate | crates/portfolio_engine/src/engine.rs:216-240 | each open position once, total PnL, deployed capital |
| CostModel.PositionSizeShrinks | crates/cost_model/src/model.rs:95-104 | cost scaling never makes a position larger |
| RiskLedger.ApprovalSafe | crates/risk_engine/src/engine.rs:193-241 | whatever the prior state, an approval gives 0 < size <= min(requested, max_position_fraction), total and cluster within limits, other positions and clusters untouched |
| RiskLedger.ExposureBounded | crates/risk_engine/src/engine.rs:70-254 | over every run, total and cluster exposure never exceed the larger of the limit and the last synced value |
| RiskLedger.EverySignalCounted | crates/risk_engine/src/engine.rs:70-254 | signals_seen = trades_approved + trades_rejected in every run |
| RiskLedger.TracksTake | crates/risk_engine/src/engine.rs:162-175 | releasing a position: the clamps at zero never bite and adding the size back restores total and cluster map |
| RiskLedger.SyncedKeys | crates/risk_engine/src/engine.rs:359-383 | after a resync the positions are exactly the published markets |
| RiskLedger.ListIsTotal | crates/risk_engine/src/engine.rs:367-383 | with one listed position a market, what a resync adds up is the sum over the positions, in total and per cluster |
| RiskGates.WorthItIff | crates/risk_engine/src/engine.rs:70-148 | the first three rejections in the signal's own figures: expected value below the minimum, mispricing used up by decay, fees, spread and impact, profit in dollars below the minimum |
| RiskGates.GatesMean | crates/risk_engine/src/engine.rs:151-215 | a signal past those is rejected for drawdown exactly when equity is below peak x (1 - max_drawdown), and for exposure exactly when the other positions leave no room |
| RiskGates.ApprovalMeans | crates/risk_engine/src/engine.rs:70-156 | nothing is approved that fails one of the first three gates, or while equity is below peak x (1 - max_drawdown) |
| RiskGates.ApprovedSizeMeans | crates/risk_engine/src/engine.rs:193-226 | an approval is the least of request, position cap and the two rooms, scaled by the share of the mispricing that costs leave |
| RiskGates.PeakIsHighest | crates/risk_engine/src/engine.rs:355-367 | over every run peak_equity is the largest of the bankroll and all published equities, current_equity the last |
| RiskGates.NoApprovalInDrawdown | crates/risk_engine/src/engine.rs:151-156 | over every run nothing is approved while equity is further below the bankroll or any equity published before than max_drawdown of it |
| RiskGates.TallyByReason | crates/risk_engine/src/engine.rs:132-148 | over every run the counters are the numbers of approvals and of rejections for those two reasons |
| RiskGates.CostsAddUp | crates/risk_engine/src/engine.rs:126-130 | over every run net_edge_sum is gross_edge_sum less total_cost_sum, as long as no net edge is cut to [-1, 1] |
| RiskGates.CostsCount | crates/risk_engine/src/engine.rs:126-130 | over every run the cost gate counts the signals with enough expected value and sums their mispricings |
| RiskEngine.RiskEngine.constructor | crates/risk_engine/src/engine.rs:43-58 | a new engine has no positions and no exposure |
| RiskEngine.RiskEngine.CheckExposure | crates/risk_engine/src/engine.rs:162-241 | release, limits, then commit or exact rollback |
| RiskEngine.RiskEngine.EvaluateSignal | crates/risk_engine/src/engine.rs:70-254 | all gates: verdict, reason, counters and state equal the specification; exposure fields track the sums and are untouched on rejection |
| RiskEngine.RiskEngine.Gate | crates/risk_engine/src/engine.rs:88-160 | expected value, cost, profit and drawdown gates in order |
| RiskEngine.RiskEngine.SyncPortfolio | crates/risk_engine/src/engine.rs:359-383 | positions, equity and peak follow the update, and the exposures add up every listed position; when no market is listed twice and no size is negative they are the sums over the new positions |
| AllocatorTies.OutputDeterminedIff | crates/portfolio_optimizer/src/allocator.rs:47-120 | the output list of a batch is determined if and only if its ties are settled: going down the tiers of equal score, at most one market of each tier would receive anything from what the higher tiers leave |
| AllocatorTies.SettledOutput | crates/portfolio_optimizer/src/allocator.rs:70-120 | settled ties give one output, whatever their order |
| AllocatorTies.UnsettledDiffers | crates/portfolio_optimizer/src/allocator.rs:70-120 | an unsettled tie has two orders with different outputs |
| AllocatorTies.AllocationMonotone | crates/portfolio_optimizer/src/allocator.rs:78-104 | an allocation that is positive stays positive when less of the budget and of the niche has been used |
| AllocatorTies.NoTiesSettled | crates/portfolio_optimizer/src/allocator.rs:66-120 | a batch without ties is settled |
| AllocatorTheorems.RankingDeterminedIff | crates/portfolio_optimizer/src/allocator.rs:47-68 | the ranking is determined by the batch if and only if no two markets tie for their best score |
| AllocatorTheorems.TieChangesAllocation | crates/portfolio_optimizer/src/allocator.rs:47-120 | a tie breaks the promised determinism: one batch, two valid rankings, two different markets funded |
| AllocatorTheorems.BatchOrderIrrelevant | crates/portfolio_optimizer/src/allocator.rs:48-123 | with distinct scores every permutation of the batch gives the same output list |
| AllocatorTheorems.BatchWithinLimits | crates/portfolio_optimizer/src/allocator.rs:48-123 | one grant per market, for its best signal, in non-increasing score order; each positive and within request and market cap; niches and total within their caps |
| AllocatorTheorems.GreedyWithinLimits | crates/portfolio_optimizer/src/allocator.rs:70-120 | the greedy pass keeps running totals within niche cap and budget |
| AllocatorTheorems.AllocationWithinCaps | crates/portfolio_optimizer/src/allocator.rs:82-104 | one positive allocation respects all four caps after the correlation penalty |
| AllocatorTheorems.GreedyKeepsOrder | crates/portfolio_optimizer/src/allocator.rs:70-120 | grants follow the ranking, at most one per ranked signal |
| AllocatorTheorems.TieSwaps | crates/portfolio_optimizer/src/allocator.rs:66-68 | swapping two tied markets gives another valid ranking |
| Allocator.Dedup | crates/portfolio_optimizer/src/allocator.rs:52-64 | keeps per market exactly the first signal of maximal score |
| Allocator.Rank | crates/portfolio_optimizer/src/allocator.rs:66-68 | the kept signals, once each, in non-increasing score order |
| Allocator.ComputeAllocations | crates/portfolio_optimizer/src/allocator.rs:48-123 | a batch is deduplicated, ranked and allocated greedily within total_capital x capital_available |
| AllocatorScores.GrantsByMerit | crates/portfolio_optimizer/src/allocator.rs:52-75 | a grant's risk_adjusted_ev is expected value times confidence of its signal, no signal of its market in the batch has more, and grants stand in non-increasing order of it |
| AllocatorScores.AllocationIsLargest | crates/portfolio_optimizer/src/allocator.rs:78-105 | a grant is the largest amount within request, market cap, niche room and budget room, each reduced by the correlation penalty |
| AllocatorScores.FirstInNiche | crates/portfolio_optimizer/src/allocator.rs:78-105 | the first grant in a niche is not penalised |
| AllocatorScores.UnfundedIff | crates/portfolio_optimizer/src/allocator.rs:78-110 | a ranked signal goes unfunded exactly when it asks for nothing, or market cap, niche room or budget room is used up, or the penalty takes all |
| AllocatorScores.FullerNicheGrantsLess | crates/portfolio_optimizer/src/allocator.rs:78-105 | the fuller the niche, the smaller the grant |
| AllocatorScores.GrantReports | crates/portfolio_optimizer/src/allocator.rs:112-124 | a grant reports how full its niche was and the penalty it paid for that |
| Common.ClusterIsPrefix | crates/portfolio_optimizer/src/allocator.rs:131-136 | the niche of an id is its longest prefix without an underscore |
| ExecutionSim.ExecutionWithinOrder | crates/execution_sim/src/engine.rs:80-135 | for any draws: never more than approved, fill ratio exact, slippage within three deviations, price in (0, 1] |
| ExecutionSim.SlippageMovesPrice | crates/execution_sim/src/engine.rs:99-126 | positive slippage pays above the market price, negative below, none exactly the market price |
| ExecutionSim.DrawsDecideFill | crates/execution_sim/src/engine.rs:84-112 | a sample within three standard deviations is taken as it is and the fill is the whole order or the drawn share; a larger one is cut and the fill shrinks in the same proportion |
| Optimizer.PortfolioOptimizer.constructor | crates/portfolio_optimizer/src/state.rs:34-46 | starts with an empty buffer and all capital free |
| Optimizer.PortfolioOptimizer.OnSignal | crates/portfolio_optimizer/src/engine.rs:111-120 | a single signal is appended, unless ranked batches are in use |
| Optimizer.PortfolioOptimizer.OnTopSignals | crates/portfolio_optimizer/src/engine.rs:125-138 | a ranked batch is appended in order, unless single signals are in use |
| Optimizer.PortfolioOptimizer.OnPortfolio | crates/portfolio_optimizer/src/engine.rs:140-153 | capital_available is the clamped unused share of the bankroll; listed positions overwrite the known ones, and none is ever dropped |
| Optimizer.FreeCapital | crates/portfolio_optimizer/src/engine.rs:140-149 | free capital is what the bankroll has beyond the exposure, and nothing when the exposure exceeds it |
| Optimizer.PortfolioOptimizer.FlushBatch | crates/portfolio_optimizer/src/engine.rs:167-213 | the buffer is emptied into exactly one allocation; an empty buffer is no batch |
| CapitalLoop.SyncMirrorsBook | crates/risk_engine/src/engine.rs:359-383 | after an update the risk engine holds each position's share of the bankroll, cut at the cap |
| CapitalLoop.UpdatesPublishable | crates/portfolio_engine/src/engine.rs:216-240 | whatever the portfolio publishes lists no market twice and no negative size |
| CapitalLoop.ExposureAgrees | crates/risk_engine/src/engine.rs:359-383 | risk total_exposure is at most the portfolio's exposure fraction, and equal if and only if no position sits inside the trimming slack above the cap |
| CapitalLoop.EquityAndCashAgree | crates/portfolio_optimizer/src/engine.rs:140-153 | risk current_equity is total_equity and capital_available is cash / bankroll |
| CapitalLoop.ExecutedWithinGrant | crates/execution_sim/src/engine.rs:80-135 | through risk and execution a grant only shrinks |
| CapitalLoop.ServeSpendsAtMost | crates/portfolio_engine/src/engine.rs:107-119 | serving one grant spends at most the grant; neither the cash clamp nor the trim fires |
| CapitalLoop.BatchNeverClamps | crates/portfolio_engine/src/engine.rs:107-119 | through a whole batch that fits in the free cash the cash clamp never fires |
| CapitalLoop.PositionIsWholeFill | crates/portfolio_engine/src/engine.rs:88-139 | such a report replaces the portfolio position, which ends at exactly what the exchange has filled, cash permitting, however much earlier reports had booked |
| CapitalLoop.SubmissionBooked | crates/oms/src/manager.rs:148-227 | a refused or resting submission leaves the portfolio as it was, and one filled on paper becomes the position, cash permitting |
| CapitalLoop.ExecutedTrade | crates/risk_engine/src/engine.rs:243-253 | the executed trade is the grant's own: market, side, prices, source and time |
| CapitalLoop.FlushedBatchNeverClamps | crates/portfolio_optimizer/src/engine.rs:167-213 | composed loop: a batch sized from the last portfolio update with total_capital <= 1 never makes the cash clamp fire, whatever the risk engine's state at each arrival |
| OmsLedger.RunKeepsBook | crates/oms/src/manager.rs:89-357 | over every run: order ids are exactly 0..next_id and next_id is the number of submissions, counted orders are final with the matching status, exchange ids point at orders holding them, every open order is known to the exchange |
| OmsLedger.FinalForever | crates/oms/src/manager.rs:233-345 | an order final after a step never changes again |
| OmsLedger.CountedAtMostOnce | crates/oms/src/state.rs:124-164 | no order is counted twice across filled, rejected and cancelled |
| OmsLedger.PollCountsIff | crates/oms/src/manager.rs:258-300 | a poll counts an order as filled if and only if the exchange reports it filled with new volume |
| OmsLedger.FilledUncountedIff | crates/oms/src/manager.rs:233-317 | over whole runs: an order that becomes filled is missing from the filled counter, then and for ever after, if and only if the step was a poll whose reply reported it filled without new volume |
| OmsLedger.EndedUncountedIff | crates/oms/src/manager.rs:233-345 | over whole runs: an order that becomes cancelled or rejected is missing from total_cancelled or total_rejected, then and for ever after, if and only if the step was a poll |
| OmsLedger.ReportIsWholeFill | crates/oms/src/manager.rs:248-309 | a poll publishes an execution exactly when the recorded fill grows, and then it carries the whole fill so far, not the increment |
| OmsLedger.SubmissionReported | crates/oms/src/manager.rs:148-227 | a submission publishes exactly when its order is final, filled or not as the order is, for the amount the order records; the order asks for the trade's market, side, size and price |
| OmsLedger.ReplyRecorded | crates/oms/src/manager.rs:258-285 | what a reply leaves on record: volume, status unless volume was added without completing the order, price, one more poll |
| OmsLedger.ActiveMeans | crates/oms/src/state.rs:140-145 | only orders that are pending, open or partially filled are looked at again |
| OmsLedger.PollReaches | crates/oms/src/manager.rs:233-317 | within a poll each order only meets its own reply |
| OmsLedger.PollOverridesFinal | crates/oms/src/manager.rs:258-273 | an exchange-reported final status is overridden within the poll if and only if it is not a full fill and carries new volume |
| OmsLedger.FilledButUncounted | crates/oms/src/manager.rs:258-300 | a run ending in a filled order that total_filled and total_volume_usd never saw |
| OmsLedger.SubmitKeeps | crates/oms/src/manager.rs:89-196 | submission keeps the book, freezes final orders, takes one id |
| OmsLedger.PollKeeps | crates/oms/src/manager.rs:233-317 | a poll of any active orders keeps the book and freezes final orders |
| OmsLedger.CancelStaleKeeps | crates/oms/src/manager.rs:320-357 | stale cancellation keeps the book and freezes final orders |
| OmsLedger.CountFilled | crates/oms/src/state.rs:148-164 | counting one more filled order adds its size to the volume |
| Oms.OrderManager.constructor | crates/oms/src/state.rs:70-86 | starts empty; total_submitted is next_id, the other counters are the sizes of the counted sets and the volume is the sum of the counted fills, which every method keeps |
| Oms.OrderManager.InsertOrder | crates/oms/src/state.rs:89-110 | the new order gets the next id |
| Oms.OrderManager.SetExchangeId | crates/oms/src/state.rs:113-121 | both directions of the exchange link are written; an unknown order is ignored |
| Oms.OrderManager.MarkRejected | crates/oms/src/state.rs:124-137 | status, counter and nothing else; an unknown order is ignored |
| Oms.OrderManager.RecordFill | crates/oms/src/state.rs:148-164 | fill fields; counters only on a full fill; an unknown order is ignored |
| Oms.OrderManager.ActiveOrders | crates/oms/src/state.rs:140-145 | exactly the orders not yet final that have an exchange id |
| Oms.OrderManager.SubmitTrade | crates/oms/src/manager.rs:89-196 | nothing without a connector or below the minimum; otherwise one order, dry-run filled, placed or rejected, and the execution published for it |
| Oms.OrderManager.PollActiveOrders | crates/oms/src/manager.rs:233-317 | every active order gets its reply applied once; final orders stay frozen; one execution is published per reply with more volume |
| Oms.OrderManager.CancelStaleOrders | crates/oms/src/manager.rs:320-357 | exactly the stale active orders whose cancellation the exchange accepts are cancelled |
| JointHistory.WindowIsLast | crates/relationship_discovery/src/types.rs:89-111 | after any pushes the window is the last `window` observations |
| JointHistory.JointEntry.Push | crates/relationship_discovery/src/types.rs:89-111 | the entry becomes the pushed one, and counts that were right stay right |
| JointHistory.PushedKeeps | crates/relationship_discovery/src/types.rs:89-111 | after a push each count equals the number of window entries with that move |
| JointHistory.CountedAfterEviction | crates/relationship_discovery/src/types.rs:101-110 | the evicted entry's count is positive, so the saturating decrement never saturates |
| JointHistory.OccurrencesFront | crates/relationship_discovery/src/types.rs:101-110 | evicting the oldest entry lowers exactly its own count |
| Discovery.RunKeepsState | crates/relationship_discovery/src/engine.rs:123-388 | over every run and across evictions: 2 x joint pushes + dirty markets <= accepted samples, joint entries name strictly ordered pairs of live markets, windows stay bounded, every move count is right |
| Discovery.PairUpKeeps | crates/relationship_discovery/src/engine.rs:208-313 | one pairing consumes two dirty flags for one joint observation |
| Discovery.EvictKeeps | crates/relationship_discovery/src/engine.rs:351-388 | eviction keeps exactly the joint entries of two live markets |
| Discovery.UpdateKeeps | crates/relationship_discovery/src/engine.rs:123-318 | one market update keeps the state in order, whichever pairable peer comes first |
| Discovery.DiscoveryEngine.FindPeer | crates/relationship_discovery/src/engine.rs:208-228 | the first pairable peer in an arbitrary lookup order, or none when there is none |
| Discovery.DiscoveryEngine.ProcessMarketUpdate | crates/relationship_discovery/src/engine.rs:123-318 | noise gate, history, warm-up, at most one pairing, its scoring and announcement, eviction tick; the scores are those of the entry's window, counts and embeddings |
| Discovery.DiscoveryEngine.PushJoint | crates/relationship_discovery/src/engine.rs:245-296 | push, score, stamp and clear both dirty flags |
| DiscoveryPrices.RecordedIff | crates/relationship_discovery/src/engine.rs:165-180 | a price is recorded exactly when it is the market's first or at least min_prob_change above or below the last |
| DiscoveryPrices.RunKeepsSpaced | crates/relationship_discovery/src/engine.rs:165-200 | over every run, consecutive recorded prices of a market are at least min_prob_change apart |
| DiscoveryPrices.PairsLatestPrices | crates/relationship_discovery/src/engine.rs:245-262 | a pairing adds one observation of the two latest recorded prices, the smaller id's first |
| DiscoveryPrices.KeptIff | crates/relationship_discovery/src/engine.rs:351-388 | an eviction keeps exactly the markets seen less than market_ttl_secs ago or last seen in the clock's future, and the entries of two kept markets |
| Correlation.CauchySchwarz | crates/relationship_discovery/src/correlator.rs:43-49 | the accumulators satisfy cov^2 <= vx * vy |
| Correlation.CoefficientInRange | crates/relationship_discovery/src/correlator.rs:50-56 | so the quotient is always in [-1, 1] and the clamp is a no-op |
| Correlation.PerfectIffProportional | crates/relationship_discovery/src/correlator.rs:29-57 | the coefficient is 1 or -1 if and only if the deviations are proportional |
| Correlation.SelfCorrelation | crates/relationship_discovery/src/correlator.rs:29-57 | correlated with itself a sequence scores exactly 1 |
| Correlation.CoefficientExistsIff | crates/relationship_discovery/src/correlator.rs:29-57 | there is a coefficient exactly when the product of the two variations exceeds the square of 1e-12 |
| Correlation.TrailingIsLast | crates/relationship_discovery/src/correlator.rs:30-36 | the samples compared are the last ones |
| Correlation.ResidualExpands | crates/relationship_discovery/src/correlator.rs:43-49 | the identity behind both: a sum of squares in terms of the three accumulators |
| Correlation.Pearson | crates/relationship_discovery/src/correlator.rs:29-57 | the loop computes the unclamped coefficient of the trailing common samples; none below two samples or at a vanishing denominator |
| Ranking.Ranks | crates/relationship_discovery/src/correlator.rs:60-82 | the result is the average ranking with epsilon ties, and sums to n(n+1)/2 under any ties |
| Ranking.RankingUnique | crates/relationship_discovery/src/correlator.rs:60-82 | that ranking is unique: order preserving, ties within the epsilon of their group's least value, each rank the average place of its group |
| Ranking.RankingStrict | crates/relationship_discovery/src/correlator.rs:69-75 | values at least an epsilon apart get different ranks, in order |
| Ranking.RankingByOrder | crates/relationship_discovery/src/correlator.rs:60-82 | an order-preserving change of well separated values leaves the ranking alone |
| Ranking.SortByValue | crates/relationship_discovery/src/correlator.rs:61-64 | each position once, with its value, in non-decreasing order |
| Ranking.Spearman | crates/relationship_discovery/src/correlator.rs:86-94 | Pearson's coefficient of the two rankings of the trailing common samples |
| Ranking.RankCoefficientByOrder | crates/relationship_discovery/src/correlator.rs:86-94 | rank correlation only sees the order of well separated values |
| Embedding.CosineSimilarity | crates/relationship_discovery/src/correlator.rs:275-285 | the merge-join over sorted vectors is the dot product over the tokens their maps share, clamped |
| Embedding.UnitDotInRange | crates/relationship_discovery/src/correlator.rs:275-285 | for unit vectors of non-negative weights the clamp is a no-op, and self-similarity is 1 |
| Embedding.DotBelowSquares | crates/relationship_discovery/src/correlator.rs:275-285 | twice a dot product is at most the sum of the squared norms |
| Embedding.BuildEmbedding | crates/relationship_discovery/src/correlator.rs:254-270 | term frequencies over their norm: sorted, unit length, empty exactly for no tokens or a norm below the floor |
| Embedding.FewTokensEmbed | crates/relationship_discovery/src/correlator.rs:254-266 | up to a million tokens always have an embedding: the norm never falls below the floor |
| Embedding.Similarity | crates/relationship_discovery/src/correlator.rs:254-285 | embeddings of two token lists compared: the clamp never takes effect |
| Embedding.JoinHeads | crates/relationship_discovery/src/correlator.rs:277-280 | a shared token contributes the product of its two weights |
| Direction.ExchangeFlips | crates/relationship_discovery/src/correlator.rs:158-229 | after any run of observations, exchanging the two markets turns the inferred direction round |
| Direction.TransposeFlips | crates/relationship_discovery/src/correlator.rs:211-229 | transposing the counts flips infer_direction |
| Direction.LeaderIff | crates/relationship_discovery/src/correlator.rs:221-245 | an edge is drawn from B to A exactly when A moves with B often enough, up and down, and B with A not; and mirrored |
| Direction.CountsAreMoves | crates/relationship_discovery/src/types.rs:42-50 | after any run the counts say how often, within the window, each market rose by more than the threshold, fell by more than it, or did neither |
| Direction.TotalOfRun | crates/relationship_discovery/src/correlator.rs:159-162 | the counts total one less than the observations until the window is full, then exactly the window |
| Direction.ShareExact | crates/relationship_discovery/src/correlator.rs:176-177 | a conditional is the exact quotient in [0, 1], its clamp a no-op |
| MutualInformation.NormalizedMeaning | crates/relationship_discovery/src/correlator.rs:104-147 | with at most a million counted moves the value is the exact quotient of mutual information and the smaller entropy, so neither the floor nor the clamp ever fires; it is 0 exactly when the two markets move independently, and 1 exactly when both vary and one determines the other |
| MutualInformation.InformationZeroIff | crates/relationship_discovery/src/correlator.rs:129-143 | mutual information is never negative, and zero exactly when every pair of moves is as frequent as independence calls for, as long as no pair that happened is skipped as too rare |
| MutualInformation.InformationBelowEntropy | crates/relationship_discovery/src/correlator.rs:118-147 | it is at most the first market's entropy, with equality exactly when the second market's move tells the first one's |
| MutualInformation.InformationBelowOther | crates/relationship_discovery/src/correlator.rs:118-147 | the same for the second market's entropy |
| MutualInformation.EntropyVanishesIff | crates/relationship_discovery/src/correlator.rs:118-146 | an entropy falls below the cut-off exactly when the market made the same move every time |
| MutualInformation.NormalizedSymmetric | crates/relationship_discovery/src/correlator.rs:104-147 | exchanging the two markets leaves the value as it is, skipped pairs or not |
| MutualInformation.FewMovesSkipNothing | crates/relationship_discovery/src/correlator.rs:134-140 | with at most a million counted moves no pair that happened falls below the cut-off |
| MutualInformation.WindowSkipsNothing | crates/relationship_discovery/src/correlator.rs:104-108 | the window caps the counted moves after any run |
| MutualInformation.ComputeNormalizedMi | crates/relationship_discovery/src/correlator.rs:104-147 | the four loops over the counts, in arbitrary order, give that value |
| MutualInformation.Margins | crates/relationship_discovery/src/correlator.rs:111-116 | both marginal counts, in arbitrary order |
| MutualInformation.SumInformation | crates/relationship_discovery/src/correlator.rs:129-143 | the sum over the pairs of moves that happened and are not too rare |
| Relationship.TryRelationship | crates/relationship_discovery/src/correlator.rs:303-389 | all gates of a pair: found exactly when enough samples, not held back and strong enough; the stamp changes only on success |
| Relationship.PairingOrderIrrelevant | crates/relationship_discovery/src/correlator.rs:303-389 | exchanging the two markets of a pair gives the same announcement with the direction turned round |
| Announcements.AnnouncedIff | crates/relationship_discovery/src/engine.rs:258-280 | over every run: a pairing with enough samples and a sufficient score is announced if and only if the last announcement its joint entry has survived is not between 0 and edge_ttl_secs seconds old |
| Announcements.SpacingIff | crates/relationship_discovery/src/correlator.rs:317-325 | two consecutive announcements of a surviving entry are at least edge_ttl_secs apart if and only if the clock has not gone back |
| Announcements.AnnouncementsSpaced | crates/relationship_discovery/src/correlator.rs:317-325 | while the clock does not go back and the entry survives, any two announcements of a pair are at least edge_ttl_secs apart |
| Announcements.EvictionForgets | crates/relationship_discovery/src/engine.rs:351-380 | eviction drops the stamp with the entry: for every gap from one second to market_ttl_secs, a run with a forward clock that announces one pair twice that far apart, whatever edge_ttl_secs and the scores are |
| Announcements.StampMeans | crates/relationship_discovery/src/correlator.rs:375-377 | in every run a stamp is the time of the last announcement the entry has survived, or absent |
| Announcements.StampStep | crates/relationship_discovery/src/engine.rs:258-313 | one update changes a surviving stamp only by announcing its pair |
| Relationship.GateExact | crates/relationship_discovery/src/correlator.rs:318-325 | an otherwise sound announcement is made if and only if the stamp is missing, expired, or in the future, which the comment there denies |
| Relationship.StrengthIsBlend | crates/relationship_discovery/src/correlator.rs:352-360 | with validated weights and parts in range the clamp never interferes, and the sign of a correlation does not matter |
| Relationship.StrengthResponds | crates/relationship_discovery/src/correlator.rs:352-360 | the score grows in each part by that part's weight, half of it for either correlation |
| Relationship.StrengthEnds | crates/relationship_discovery/src/correlator.rs:352-360 | the score is 0 when every part is 0 and 1 when every part is 1 |
| Lex.Trichotomy | crates/relationship_discovery/src/types.rs:20-26 | string order is total, so canonical pairs are unique |
| Lex.Transitive | crates/relationship_discovery/src/correlator.rs:275-285 | string order is transitive, so sorted vectors can be merged |
| Lex.FirstDifference | crates/relationship_discovery/src/types.rs:18-25 | strings are ordered by the first character they differ in, and come before their extensions |
| Scoring.RunScores | crates/calibration/src/state.rs:32-71 | after any run each market has exactly the record the log calls for: its last prediction before its first extreme price, against that outcome; nothing is scored twice, pending and resolved are disjoint |
| Scoring.RecordsDeserved | crates/calibration/src/state.rs:45-71 | in every run a market is settled exactly when some price of it was within epsilon of 0 or 1; outcome 1 comes from a price near 1, outcome 0 from one near 0, and the score is the squared distance |
| Scoring.StepKeeps | crates/calibration/src/state.rs:32-71 | one event keeps pending and resolved disjoint and records distinct, and never drops a record or a resolution |
| Calibration.CalibrationState.constructor | crates/calibration/src/state.rs:23-30 | starts with nothing pending, scored or resolved |
| Calibration.CalibrationState.OnPosterior | crates/calibration/src/state.rs:32-41 | keeps the latest prediction of an unresolved market |
| Calibration.CalibrationState.OnMarketUpdate | crates/calibration/src/state.rs:45-71 | settles at an extreme price and scores the pending prediction, if any |
| Calibration.CalibrationState.OverallBrier | crates/calibration/src/state.rs:74-77 | the mean Brier score, 0.5 before the first record |
| Calibration.CalibrationState.ComputeBuckets | crates/calibration/src/state.rs:95-121 | each bucket holds the count, mean prediction and outcome rate of exactly its own records; no buckets when none are configured |
| Calibration.CalibrationState.ErrorOfBuckets | crates/calibration/src/state.rs:81-92 | the expected calibration error over the buckets with enough samples |
| Buckets.BucketsPartition | crates/calibration/src/state.rs:103-117 | the buckets partition the records: counts add up to their number, any per-record sum to its total |
| Buckets.ErrorInRange | crates/calibration/src/state.rs:81-92 | for predictions in [0, 1] the error is in [0, 1] |
| Buckets.ErrorAboveOverallGap | crates/calibration/src/state.rs:81-92 | when min_bucket_samples <= 1 the error is at least the gap between overall mean prediction and overall outcome rate |
| Buckets.MeanWithinEdges | crates/calibration/src/state.rs:95-121 | the mean prediction of a non-empty bucket lies between the bucket's edges |
| Buckets.CenterIsMiddle | crates/calibration/src/state.rs:95-123 | a bucket's centre is the middle of its edges, and what an empty bucket shows |
| Buckets.TermIsGap | crates/calibration/src/state.rs:86-91 | a bucket's term is the size of its summed prediction errors |
| Calibration.BrierAboveSquaredGap | crates/calibration/src/state.rs:74-77 | the mean Brier score is at least the square of the overall gap |
| Calibration.RunCalibrated | crates/calibration/src/state.rs:32-121 | over every run of probability predictions: nothing scored twice, buckets complete, error in [0, 1], Brier above the squared gap |
| Drawdown.DrawdownIsPeakFall | crates/performance_analytics/src/engine.rs:179-191 | for every sequence of equities, max_drawdown is the largest fall from the running maximum wherever that is positive: an upper bound, attained unless zero |
| Drawdown.WorstFallIff | crates/performance_analytics/src/engine.rs:179-191 | it bounds every fall (e_i - e_j)/e_i from a positive equity to a later one if and only if no equity below zero comes after a positive one, or, among the falls below zero measured from the smallest positive equity before each, a deepest one comes at a moment before which all positive equities are equal |
| Drawdown.LifetimeAgainstWindow | crates/performance_analytics/src/types.rs:69-71 | for equities never below zero, tracking only the last w reports at most as much, and as much exactly when there is no drawdown or a fall of that size lies inside the window |
| Drawdown.FallOutlivesWindow | crates/performance_analytics/src/engine.rs:30-36 | for all 0 < b < a the run a, b, b has a lifetime drawdown and none in a window of two |
| Drawdown.WindowReportsMore | crates/performance_analytics/src/types.rs:69-71 | below zero a window can also report more than the lifetime: for all 0 < a < b and c < 0, on b, a, c with a window of two |
| Drawdown.DrawdownIsWorstFall | crates/performance_analytics/src/engine.rs:179-191 | for equities never below zero, max_drawdown is the worst fall (e_i - e_j)/e_i over all i <= j with e_i positive: an upper bound, attained unless zero |
| Drawdown.PositiveEquityDrawdown | crates/performance_analytics/src/engine.rs:179-191 | for positive equities it is that maximum outright |
| Drawdown.NegativeEquityUnderstated | crates/performance_analytics/src/engine.rs:179-191 | a rise followed by a fall below zero is always understated: for 0 < a < b and c < 0 the tracker reports the fall from b, the fall from a is larger |
| Drawdown.PeakIsMaximum | crates/performance_analytics/src/engine.rs:179-182 | peak_equity is the maximum of all equities ever seen |
| Drawdown.DashboardAgrees | control-panel/src/event_collector.rs:216-227 | the dashboard's own tracker computes the same peak and drawdown on every sequence |
| Analytics.PerformanceAnalytics.constructor | crates/performance_analytics/src/engine.rs:70-79 | starts with no history, no peak, no drawdown; in order when the configuration is valid |
| Analytics.Create | crates/performance_analytics/src/engine.rs:66-80 | an engine for a valid configuration, otherwise the error of the first failed check with the offending value |
| Analytics.PerformanceAnalytics.ProcessPortfolioUpdate | crates/performance_analytics/src/engine.rs:171-219 | one more snapshot: the history is the last history_window of all snapshots, the tracker has seen all of them, only open markets keep a cached price |
| Analytics.PerformanceAnalytics.ProcessMarketUpdate | crates/performance_analytics/src/engine.rs:222-225 | one cached price is set |
| Analytics.PerformanceAnalytics.ComputeRiskMetrics | crates/performance_analytics/src/engine.rs:244-310 | mean, sample volatility, Sharpe ratio and share of gains of the history's PnL ticks; the current drawdown is the latest drop and never exceeds the maximum |
| Analytics.MeanTick | crates/performance_analytics/src/engine.rs:260-268 | the mean tick telescopes: times the number of ticks it is the last total PnL minus the first |
| TickRisk.Summarise | crates/performance_analytics/src/engine.rs:268-291 | the loops over the ticks compute those figures; the share of gains times the ticks is the number of gains |
| TickRisk.VolatilityZeroIff | crates/performance_analytics/src/engine.rs:269-285 | the volatility is never negative, and zero exactly when all ticks are equal |
| TickRisk.RiskScales | crates/performance_analytics/src/engine.rs:268-271 | counting money in another unit scales mean and volatility alike |
| TickRisk.SharpeHasNoUnit | crates/performance_analytics/src/engine.rs:273-285 | the Sharpe ratio does not depend on the unit of account, as long as the volatility counts as positive |
| TickRisk.SharpeSign | crates/performance_analytics/src/engine.rs:273-285 | the ratio has the sign of the mean; without volatility it is infinite in that direction, or undefined |
| TickRisk.VarianceOfTwo | crates/performance_analytics/src/engine.rs:269-271 | two ticks have half their squared distance as variance: one degree of freedom |
| Analytics.FactorSquared | crates/performance_analytics/src/config.rs:43-46 | the annualisation factor squared is the number of ticks in a year |
| Analytics.BuildMetrics | crates/performance_analytics/src/engine.rs:96-153 | the snapshot: marked gains, realised residual, equity and exposure fraction |
| Analytics.PerMarketAddsUp | crates/performance_analytics/src/engine.rs:103-117 | with one position a market the per-market gains add up to the unrealised total |
| Analytics.GainMoves | crates/performance_analytics/src/engine.rs:103-117 | a market's gain moves with its price for Buy and Arbitrage, against it for Sell, by the move times the size; at the entry price it is zero |
| Analytics.SplitAgrees | crates/performance_analytics/src/engine.rs:127-133 | the inferred realised/unrealised split and equity are the portfolio engine's own when its book was marked at the cached prices |

## Left out

- Async runtime, event bus, locks, timers, logging and metrics; HTTP, exchange connectors, persistence, UI.
- Update timestamps of orders, positions and portfolio.
- Rounding, NaN and infinity: arithmetic is exact, and the finite-value gates have nothing to reject.
- Handles: the graph library's slot numbers are arbitrary unused numbers here, edge handles are positions that
  later removals may shift, and `get_market_mut` is not modelled.
- Discovery.DiscoveryEngine.ProcessMarketUpdate: joint entries are values in the engine's map, taken out into a
  `JointEntry` object for the push and the scoring and put back; the cached embeddings sit in a map of their own.
- Relationship.TryRelationship: the NaN gate is absent: real arithmetic has none.
- Embedding.BuildEmbedding: splitting a market id into tokens is not modelled; tokens are any strings.
- RiskEngine.RiskEngine.EvaluateSignal: the latency estimate and the liquidity cache are inputs or absent.
- Calibration.CalibrationState.ComputeBuckets: excludes having no buckets but some records, where the program indexes
  out of range.
- Analytics.PerformanceAnalytics.ComputeRiskMetrics: the Sharpe ratio's NaN and infinities are constructors of their own.
- Oms.OrderManager.SubmitTrade: choosing an exchange from the shape of a market id, edge-decay reports, balance queries.
- Oms.OrderManager.PollActiveOrders: with a bankroll of zero the published fraction is 0 here, and infinite or
  undefined in the program.
- PortfolioEngine.PortfolioState.ApplyExecution: position tags and the last-update timestamp.
- Claims about in-flight trades across portfolio resyncs: a resync can forget an approved but unfilled trade, so limits
  are proved inside the risk engine and for one batch run alone.
- World model, scenario engine, Bayesian engine, strategy agents, meta strategy, cross-platform matcher, signal priority
  engine and simulation engine.
