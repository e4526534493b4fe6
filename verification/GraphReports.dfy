/** What the report of a pass says about the pass, and when that is what its field comments promise. */
module GraphReports {
  import opened Wrappers
  import opened Propagation
  import opened PathSums
  import opened PathReach
  import opened GraphTypes
  import opened MarketGraph
  import opened GraphTheorems

  ghost predicate Reported(r: PropagationResult, id: string) {
    exists k :: 0 <= k < |r.nodeChanges| && r.nodeChanges[k].marketId == id
  }

  // ---------- the old value ----------

  lemma BaselineOf(g: Graph, seeds: seq<Task>, n: NodeIdx)
    requires n in g.nodes
    ensures Baseline(g, seeds, n) == if n in SeedNodes(seeds) then g.nodes[n].currentProb else g.nodes[n].impliedProb
  {
    assert n in SeedNodes(seeds) <==> exists k :: 0 <= k < |seeds| && seeds[k].node == n;
  }

  /** A seed of a pass has drifted: with a positive threshold, resetting it changes its value. */
  lemma SeedMoves(g: Graph, config: PropagationConfig, seeds: seq<Task>, n: NodeIdx)
    requires SeedsOk(g, config, seeds) && n in SeedNodes(seeds) && config.changeThreshold > 0.0
    ensures n in g.nodes && g.nodes[n].currentProb != g.nodes[n].impliedProb
  {
    var k :| 0 <= k < |seeds| && seeds[k].node == n;
    assert IsSeed(g.nodes, config, seeds[k]);
  }

  /** The reported old value is the one before the pass exactly for the markets that are no seeds. */
  lemma OldBeforePassIff(g: Graph, config: PropagationConfig, seeds: seq<Task>, now: int, decay: Decay,
                         g': Graph, r: PropagationResult, k: nat)
    requires WellFormed(g) && SeedsOk(g, config, seeds) && Pass(g, config, seeds, now, decay, g', r)
    requires k < |r.nodeChanges| && config.changeThreshold > 0.0
    ensures var c := r.nodeChanges[k];
      && c.marketId in g.indexMap && g.indexMap[c.marketId] in g.nodes
      && var n := g.indexMap[c.marketId];
         (c.oldImpliedProb == g.nodes[n].impliedProb <==> n !in SeedNodes(seeds))
  {
    hide Pass, Baseline, SeedNodes;
    PassRecord(g, config, seeds, now, decay, g', r);
    var n := g.indexMap[r.nodeChanges[k].marketId];
    hide SeedsOk;
    BaselineOf(g, seeds, n);
    if n in SeedNodes(seeds) {
      SeedMoves(g, config, seeds, n);
    }
  }

  // ---------- which markets are reported ----------

  /** Some walk of 1..max_depth edges from a seed, whose every message passes, ends at the node. */
  ghost predicate MessageArrives(g: Graph, config: PropagationConfig, seeds: seq<Task>, now: int, decay: Decay,
                                 n: NodeIdx)
    requires WellFormed(g)
  {
    WalkEndsAt(ParamsOf(g, config, now, decay), seeds, n)
  }

  lemma ReportedTouched(g: Graph, touched: map<NodeIdx, (real, real)>, r: PropagationResult, n: NodeIdx)
    requires WellFormed(g) && n in g.nodes && touched.Keys <= g.nodes.Keys
    requires exists slots :: ReportsTouched(g.nodes, touched, slots, r.nodeChanges)
    ensures Reported(r, g.nodes[n].marketId) <==> n in touched
  {
    var slots :| ReportsTouched(g.nodes, touched, slots, r.nodeChanges);
    if n in touched {
      assert n in slots;
      var k :| 0 <= k < |slots| && slots[k] == n;
      assert r.nodeChanges[k].marketId == g.nodes[n].marketId;
    }
    if Reported(r, g.nodes[n].marketId) {
      var k :| 0 <= k < |r.nodeChanges| && r.nodeChanges[k].marketId == g.nodes[n].marketId;
      assert slots[k] in slots;
    }
  }

  /** When no clamp can fire, exactly the markets are reported that some message arrives at. */
  lemma ReportedIff(g: Graph, config: PropagationConfig, seeds: seq<Task>, now: int, decay: Decay,
                    g': Graph, r: PropagationResult, n: NodeIdx)
    requires WellFormed(g) && SeedsOk(g, config, seeds) && Pass(g, config, seeds, now, decay, g', r)
    requires n in g.nodes && RoomForPass(g, config, seeds, now, decay)
    ensures Reported(r, g.nodes[n].marketId) <==> MessageArrives(g, config, seeds, now, decay, n)
  {
    hide Drain, WalkEndsAt, FullWalk;
    PassIsDrain(g, config, seeds, now, decay, g', r);
    var d := Drain(ParamsOf(g, config, now, decay), Entry(g, seeds));
    assert d.touched.Keys <= g.nodes.Keys;
    PassReaches(ParamsOf(g, config, now, decay), AfterSeeding(g.nodes, seeds), seeds, n);
    hide Pass, ReportsTouched, WellFormed, Recorded, InUnit;
    ReportedTouched(g, d.touched, r, n);
  }

  /** A market is reported with the value it was seeded with exactly when messages arrive and cancel out. */
  lemma ReportedUnmovedIff(g: Graph, config: PropagationConfig, seeds: seq<Task>, now: int, decay: Decay,
                           g': Graph, r: PropagationResult, n: NodeIdx)
    requires WellFormed(g) && SeedsOk(g, config, seeds) && Pass(g, config, seeds, now, decay, g', r)
    requires n in g.nodes && RoomForPass(g, config, seeds, now, decay)
    ensures Reported(r, g.nodes[n].marketId) && g'.nodes[n].impliedProb == Baseline(g, seeds, n)
       <==> MessageArrives(g, config, seeds, now, decay, n) && WalkSumAt(g, config, seeds, now, decay, n) == 0.0
  {
    hide Pass, RoomForPass, Reported, MessageArrives, WalkSumAt, Baseline;
    ReportedIff(g, config, seeds, now, decay, g', r, n);
    PassPathSum(g, config, seeds, now, decay, g', r, n);
  }

  /** A market that is no seed changes over the pass exactly when what arrives does not cancel out; a seed, exactly
      when what arrives does not cancel its own drift. */
  lemma ChangedIff(g: Graph, config: PropagationConfig, seeds: seq<Task>, now: int, decay: Decay,
                   g': Graph, r: PropagationResult, n: NodeIdx)
    requires WellFormed(g) && SeedsOk(g, config, seeds) && Pass(g, config, seeds, now, decay, g', r)
    requires n in g.nodes && RoomForPass(g, config, seeds, now, decay)
    ensures var drift := if n in SeedNodes(seeds) then g.nodes[n].currentProb - g.nodes[n].impliedProb else 0.0;
      g'.nodes[n].impliedProb != g.nodes[n].impliedProb
      <==> drift + WalkSumAt(g, config, seeds, now, decay, n) != 0.0
  {
    hide Pass, RoomForPass, WalkSumAt, Baseline, SeedNodes;
    PassPathSum(g, config, seeds, now, decay, g', r, n);
    BaselineOf(g, seeds, n);
  }

  lemma {:induction false} NoWalkNoSum(p: Params, size: bool, ws: seq<seq<Arc>>, delta: real, v: NodeIdx)
    requires forall w :: w in ws ==> WalkTerm(p, size, w, delta, v) == 0.0
    ensures WalkSum(p, size, ws, delta, v) == 0.0
  {
    if ws != [] {
      assert ws[0] in ws;
      NoWalkNoSum(p, size, ws[1..], delta, v);
    }
  }

  lemma EndsAtLater(p: Params, seeds: seq<Task>, v: NodeIdx)
    requires seeds != [] && WalkEndsAt(p, seeds[1..], v)
    ensures WalkEndsAt(p, seeds, v)
  {
    var k, w :| 0 <= k < |seeds[1..]| && WalkTo(p, seeds[1..][k], w, v);
    assert WalkTo(p, seeds[k + 1], w, v);
  }

  lemma {:induction false} NoArrivalNoSum(p: Params, seeds: seq<Task>, v: NodeIdx)
    requires Closed(p.net) && forall k :: 0 <= k < |seeds| ==> seeds[k].node in p.net
    requires !WalkEndsAt(p, seeds, v)
    ensures SeedWalkSum(p, false, seeds, v) == 0.0
  {
    if seeds != [] {
      forall w | w in Walks(p.net, seeds[0].node, p.maxDepth)
        ensures WalkTerm(p, false, w, seeds[0].delta, v) == 0.0 {
        WalksComplete(p.net, seeds[0].node, p.maxDepth, w);
        assert !WalkTo(p, seeds[0], w, v);
      }
      NoWalkNoSum(p, false, Walks(p.net, seeds[0].node, p.maxDepth), seeds[0].delta, v);
      if WalkEndsAt(p, seeds[1..], v) {
        EndsAtLater(p, seeds, v);
      }
      NoArrivalNoSum(p, seeds[1..], v);
    }
  }

  /** A seed that no message arrives at changes, by being reset to its price, and is not reported. */
  lemma SeedUnreported(g: Graph, config: PropagationConfig, seeds: seq<Task>, now: int, decay: Decay,
                       g': Graph, r: PropagationResult, n: NodeIdx)
    requires WellFormed(g) && SeedsOk(g, config, seeds) && Pass(g, config, seeds, now, decay, g', r)
    requires RoomForPass(g, config, seeds, now, decay) && config.changeThreshold > 0.0
    requires n in SeedNodes(seeds) && n in g.nodes && !MessageArrives(g, config, seeds, now, decay, n)
    ensures !Reported(r, g.nodes[n].marketId)
    ensures g'.nodes[n].impliedProb == g.nodes[n].currentProb != g.nodes[n].impliedProb
  {
    ReportedIff(g, config, seeds, now, decay, g', r, n);
    PassPathSum(g, config, seeds, now, decay, g', r, n);
    BaselineOf(g, seeds, n);
    SeedMoves(g, config, seeds, n);
    NetClosed(g, now, decay);
    assert ParamsOf(g, config, now, decay).net.Keys == g.nodes.Keys;
    hide Pass, RoomForPass, WellFormed, Baseline, SeedNodes, WalkEndsAt, SeedWalkSum;
    NoArrivalNoSum(ParamsOf(g, config, now, decay), seeds, n);
  }

  // ---------- convergence ----------

  /** Some walk of exactly max_depth edges from a seed has every message pass. */
  ghost predicate DepthReached(g: Graph, config: PropagationConfig, seeds: seq<Task>, now: int, decay: Decay)
    requires WellFormed(g)
  {
    FullWalk(ParamsOf(g, config, now, decay), seeds)
  }

  /** When no clamp can fire, `converged` is false exactly when some passing walk has max_depth edges, whether or
      not its end has any edge to go on along. */
  lemma ConvergedIff(g: Graph, config: PropagationConfig, seeds: seq<Task>, now: int, decay: Decay,
                     g': Graph, r: PropagationResult)
    requires WellFormed(g) && SeedsOk(g, config, seeds) && Pass(g, config, seeds, now, decay, g', r)
    requires RoomForPass(g, config, seeds, now, decay)
    ensures !r.converged <==> DepthReached(g, config, seeds, now, decay)
  {
    hide Drain, WalkEndsAt, FullWalk;
    PassIsDrain(g, config, seeds, now, decay, g', r);
    PassReaches(ParamsOf(g, config, now, decay), AfterSeeding(g.nodes, seeds), seeds, 0);
  }

  // ---------- after a full pass ----------

  /** After a full pass every market that is not reported stands within the threshold of its price, from above
      and from below: the unsettled ones were seeded, and seeding puts a market at its price. */
  lemma FullPassSettles(g: Graph, config: PropagationConfig, seeds: seq<Task>, now: int, decay: Decay,
                        g': Graph, r: PropagationResult, n: NodeIdx)
    requires WellFormed(g) && IsSeeding(g, config, None, seeds)
    requires Pass(g, config, seeds, now, decay, g', r) && config.changeThreshold > 0.0
    requires n in g.nodes && !Reported(r, g.nodes[n].marketId)
    ensures n in g'.nodes
    ensures -config.changeThreshold < g'.nodes[n].currentProb - g'.nodes[n].impliedProb < config.changeThreshold
  {
    hide Pass, Baseline, SeedNodes, IsSeed, Queued;
    assert SeedsOk(g, config, seeds);
    PassRecord(g, config, seeds, now, decay, g', r);
    PassKeepsGraph(g, config, seeds, now, decay, g', r);
    BaselineOf(g, seeds, n);
    QueuedIsSeed(seeds, n);
  }

  lemma QueuedIsSeed(seeds: seq<Task>, n: NodeIdx)
    ensures Queued(seeds, n) <==> n in SeedNodes(seeds)
  {
  }
}
