/** What one propagation pass guarantees, whatever the queue, edge and lookup orders. */
module GraphTheorems {
  import opened Sums
  import opened Propagation
  import opened PathSums
  import opened PathCounts
  import opened GraphTypes
  import opened MarketGraph

  ghost predicate SeedsOk(g: Graph, config: PropagationConfig, seeds: seq<Task>) {
    forall k :: 0 <= k < |seeds| ==> IsSeed(g.nodes, config, seeds[k])
  }

  ghost predicate ProbsInRange(nodes: map<NodeIdx, MarketNode>) {
    forall n :: n in nodes ==> 0.0 <= nodes[n].impliedProb <= 1.0 && 0.0 <= nodes[n].currentProb <= 1.0
  }

  /** The loop state a pass starts from. */
  ghost function Entry(g: Graph, seeds: seq<Task>): Bfs {
    Start(AfterSeeding(g.nodes, seeds), seeds)
  }

  /** Unfolds `Pass`: the pass result is read off the drained loop state. */
  lemma PassIsDrain(g: Graph, config: PropagationConfig, seeds: seq<Task>, now: int, decay: Decay,
                    g': Graph, r: PropagationResult)
    requires WellFormed(g) && SeedsOk(g, config, seeds) && Pass(g, config, seeds, now, decay, g', r)
    ensures var p := ParamsOf(g, config, now, decay);
      && Closed(p.net) && Ready(p, Entry(g, seeds))
      && var d := Drain(p, Entry(g, seeds));
      && g' == g.(nodes := WithImplied(g.nodes, d.implied))
      && r.iterations == d.iterations && r.converged == !d.depthLimited
      && Recorded(Entry(g, seeds).implied, d)
      && (exists slots :: ReportsTouched(g.nodes, d.touched, slots, r.nodeChanges))
      && (InUnit(Entry(g, seeds).implied) ==> InUnit(d.implied))
  {
    hide Drain;
    NetClosed(g, now, decay);
    DrainRecords(ParamsOf(g, config, now, decay), Entry(g, seeds), Entry(g, seeds).implied);
  }

  lemma ImpliedInRange(nodes: map<NodeIdx, MarketNode>, seeds: seq<Task>, implied: map<NodeIdx, real>)
    requires implied.Keys == nodes.Keys && ProbsInRange(nodes)
    ensures InUnit(AfterSeeding(nodes, seeds))
    ensures InUnit(implied) ==> ProbsInRange(WithImplied(nodes, implied))
  {
    hide SeedNodes;
  }

  /** Topology, prices and all other fields are untouched; probabilities stay probabilities. */
  lemma PassKeepsGraph(g: Graph, config: PropagationConfig, seeds: seq<Task>, now: int, decay: Decay,
                       g': Graph, r: PropagationResult)
    requires WellFormed(g) && SeedsOk(g, config, seeds) && Pass(g, config, seeds, now, decay, g', r)
    ensures WellFormed(g') && g'.links == g.links && g'.indexMap == g.indexMap
    ensures SameButImplied(g.nodes, g'.nodes)
    ensures ProbsInRange(g.nodes) ==> ProbsInRange(g'.nodes)
  {
    PassIsDrain(g, config, seeds, now, decay, g', r);
    hide Drain, Pass, WellFormed, Recorded, ReportsTouched, AfterSeeding, InUnit, ProbsInRange, SeedsOk;
    var d := Drain(ParamsOf(g, config, now, decay), Entry(g, seeds));
    WithImpliedWellFormed(g, d.implied);
    if ProbsInRange(g.nodes) {
      ImpliedInRange(g.nodes, seeds, d.implied);
    }
  }

  /** A node that is no seed and ends no walk of 1..maxDepth edges from a seed keeps its value and is not reported. */
  lemma PassFrame(g: Graph, config: PropagationConfig, seeds: seq<Task>, now: int, decay: Decay,
                  g': Graph, r: PropagationResult, n: NodeIdx)
    requires WellFormed(g) && SeedsOk(g, config, seeds) && Pass(g, config, seeds, now, decay, g', r)
    requires n in g.nodes && n !in SeedNodes(seeds)
    requires forall k :: 0 <= k < |seeds| ==>
      !Reaches(NetOf(g, now, decay), seeds[k].node, config.maxDepth, n)
    ensures g'.nodes[n] == g.nodes[n]
    ensures forall k :: 0 <= k < |r.nodeChanges| ==> r.nodeChanges[k].marketId != g.nodes[n].marketId
  {
    hide Drain;
    PassIsDrain(g, config, seeds, now, decay, g', r);
    var p := ParamsOf(g, config, now, decay);
    assert OutOfReach(p, Entry(g, seeds).queue, n);
    DrainFrame(p, Entry(g, seeds), n);
    var d := Drain(p, Entry(g, seeds));
    var slots :| ReportsTouched(g.nodes, d.touched, slots, r.nodeChanges);
    forall k | 0 <= k < |r.nodeChanges| ensures r.nodeChanges[k].marketId != g.nodes[n].marketId {
      assert slots[k] in slots && slots[k] != n;
    }
  }

  /** The value of a node when the queue loop starts: a seed counts from its market price. */
  function Baseline(g: Graph, seeds: seq<Task>, n: NodeIdx): real
    requires n in g.nodes
  {
    if exists k :: 0 <= k < |seeds| && seeds[k].node == n then g.nodes[n].currentProb else g.nodes[n].impliedProb
  }

  /** The report is exact: one record per market, with the value before its first message and its final value. */
  lemma PassRecord(g: Graph, config: PropagationConfig, seeds: seq<Task>, now: int, decay: Decay,
                   g': Graph, r: PropagationResult)
    requires WellFormed(g) && SeedsOk(g, config, seeds) && Pass(g, config, seeds, now, decay, g', r)
    ensures forall k :: 0 <= k < |r.nodeChanges| ==>
      var c := r.nodeChanges[k];
      && c.marketId in g.indexMap
      && c.oldImpliedProb == Baseline(g, seeds, g.indexMap[c.marketId])
      && c.newImpliedProb == g'.nodes[g.indexMap[c.marketId]].impliedProb
    ensures forall i, j :: 0 <= i < j < |r.nodeChanges| ==> r.nodeChanges[i].marketId != r.nodeChanges[j].marketId
    ensures forall n :: n in g.nodes && g'.nodes[n].impliedProb != Baseline(g, seeds, n) ==>
      exists k :: 0 <= k < |r.nodeChanges| && r.nodeChanges[k].marketId == g.nodes[n].marketId
  {
    hide Drain;
    PassIsDrain(g, config, seeds, now, decay, g', r);
    var d := Drain(ParamsOf(g, config, now, decay), Entry(g, seeds));
    var slots :| ReportsTouched(g.nodes, d.touched, slots, r.nodeChanges);
    forall n | n in g.nodes ensures Entry(g, seeds).implied[n] == Baseline(g, seeds, n) {
      assert n in SeedNodes(seeds) <==> exists k :: 0 <= k < |seeds| && seeds[k].node == n;
    }
    forall k | 0 <= k < |r.nodeChanges|
      ensures var c := r.nodeChanges[k];
        && c.marketId in g.indexMap
        && c.oldImpliedProb == Baseline(g, seeds, g.indexMap[c.marketId])
        && c.newImpliedProb == g'.nodes[g.indexMap[c.marketId]].impliedProb
    {
      assert slots[k] in d.touched;
    }
    forall n | n in g.nodes && g'.nodes[n].impliedProb != Baseline(g, seeds, n)
      ensures exists k :: 0 <= k < |r.nodeChanges| && r.nodeChanges[k].marketId == g.nodes[n].marketId
    {
      assert n in slots;
      var k :| 0 <= k < |slots| && slots[k] == n;
      assert r.nodeChanges[k].marketId == g.nodes[n].marketId;
    }
  }

  /** The work of a pass: at most |seeds| * (1 + b + ... + b^(maxDepth-1)) tasks, b the largest out-degree. */
  lemma PassIterations(g: Graph, config: PropagationConfig, seeds: seq<Task>, now: int, decay: Decay,
                       g': Graph, r: PropagationResult)
    requires WellFormed(g) && SeedsOk(g, config, seeds) && Pass(g, config, seeds, now, decay, g', r)
    ensures r.iterations <= |seeds| * Tree(MaxDegree(NetOf(g, now, decay)), config.maxDepth)
  {
    hide Drain;
    PassIsDrain(g, config, seeds, now, decay, g', r);
    var p := ParamsOf(g, config, now, decay);
    IterationBound(p, Entry(g, seeds));
    SeedLoad(p, seeds);
  }

  /** The decay factor of every edge lies in [0, 1], as e^(-age ln2 / half-life) does for edges not from the future. */
  ghost predicate DecayOk(links: seq<Link>, now: int, decay: Decay) {
    forall k :: 0 <= k < |links| ==> 0.0 <= DecayFactor(links[k].edge, now, decay) <= 1.0
  }

  lemma UnitProduct(w: real, c: real, f: real)
    requires -1.0 <= w <= 1.0 && 0.0 <= c <= 1.0 && 0.0 <= f <= 1.0
    ensures Abs(w * c * f) <= 1.0
  {
    var x := c * w;
    Shrinks(c, w);
    Shrinks(f, x);
    calc {
      w * c * f;
      x * f;
      f * x;
    }
    assert Abs(f * x) <= 1.0;
  }

  lemma EffectiveWeightsBounded(g: Graph, now: int, decay: Decay)
    requires WellFormed(g) && DecayOk(g.links, now, decay)
    ensures WeightsBounded(NetOf(g, now, decay))
  {
    var net: Net := NetOf(g, now, decay);
    forall n: NodeIdx, k: nat | n in net && 0 <= k < |net[n]| ensures Abs(net[n][k].weight) <= 1.0 {
      OutArcsMembers(g.links, n, now, decay);
      var a := net[n][k];
      assert a in OutArcs(g.links, n, now, decay);
      var l :| l in g.links && l.source == n && a == Arc(l.target, EffectiveWeightAt(l.edge, now, decay));
      LinkWeightBounded(g, l, now, decay);
    }
  }

  lemma LinkWeightBounded(g: Graph, l: Link, now: int, decay: Decay)
    requires WellFormed(g) && DecayOk(g.links, now, decay) && l in g.links
    ensures Abs(EffectiveWeightAt(l.edge, now, decay)) <= 1.0
  {
    var j :| 0 <= j < |g.links| && g.links[j] == l;
    assert LinkOk(g.nodes, g.links[j]);
    UnitProduct(l.edge.weight, l.edge.confidence, DecayFactor(l.edge, now, decay));
  }

  /** The queue of a pass after some turns of its loop. */
  ghost function QueueAfter(g: Graph, config: PropagationConfig, seeds: seq<Task>, now: int, decay: Decay, turns: nat)
    : seq<Task>
    requires WellFormed(g) && SeedsOk(g, config, seeds)
  {
    NetClosed(g, now, decay);
    After(ParamsOf(g, config, now, decay), Entry(g, seeds), turns).queue
  }

  /** Every task of the pass is attenuated: at depth d at most |damping|^d times the largest seed delta. */
  lemma PassAttenuates(g: Graph, config: PropagationConfig, seeds: seq<Task>, now: int, decay: Decay,
                       bound: real, turns: nat, k: nat)
    requires WellFormed(g) && SeedsOk(g, config, seeds) && ProbsInRange(g.nodes) && DecayOk(g.links, now, decay)
    requires forall i :: 0 <= i < |seeds| ==> Abs(seeds[i].delta) <= bound
    requires k < |QueueAfter(g, config, seeds, now, decay, turns)|
    ensures var t := QueueAfter(g, config, seeds, now, decay, turns)[k];
      Abs(t.delta) <= Pow(Abs(config.dampingFactor), t.depth) * bound
  {
    hide After;
    var p := ParamsOf(g, config, now, decay);
    NetClosed(g, now, decay);
    EffectiveWeightsBounded(g, now, decay);
    SeedsAttenuated(p, seeds, bound);
    EveryTaskAttenuated(p, Entry(g, seeds), bound, turns);
    var t := After(p, Entry(g, seeds), turns).queue[k];
    assert TaskAttenuated(p, t, bound);
    FadedIsPower(p, t.depth, bound);
  }

  lemma SeedsAttenuated(p: Params, seeds: seq<Task>, bound: real)
    requires forall i :: 0 <= i < |seeds| ==> seeds[i].depth == 0 && Abs(seeds[i].delta) <= bound
    ensures Attenuated(p, seeds, bound)
  {
  }

  /** The pass reports convergence whenever the attenuated bound at the depth limit is below the threshold. */
  lemma PassConverges(g: Graph, config: PropagationConfig, seeds: seq<Task>, now: int, decay: Decay,
                      g': Graph, r: PropagationResult, bound: real)
    requires WellFormed(g) && SeedsOk(g, config, seeds) && Pass(g, config, seeds, now, decay, g', r)
    requires ProbsInRange(g.nodes) && DecayOk(g.links, now, decay)
    requires forall k :: 0 <= k < |seeds| ==> Abs(seeds[k].delta) <= bound
    requires config.maxDepth >= 1
    requires Pow(Abs(config.dampingFactor), config.maxDepth) * bound < config.convergenceThreshold
    ensures r.converged
  {
    hide Drain;
    PassIsDrain(g, config, seeds, now, decay, g', r);
    var p := ParamsOf(g, config, now, decay);
    EffectiveWeightsBounded(g, now, decay);
    FadedIsPower(p, config.maxDepth, bound);
    SeedsAttenuated(p, seeds, bound);
    Converges(p, Entry(g, seeds), bound);
  }

  /** No node can be pushed past 0 or 1 by the total size of the messages that walks bring it. */
  ghost predicate RoomForPass(g: Graph, config: PropagationConfig, seeds: seq<Task>, now: int, decay: Decay)
    requires WellFormed(g) && SeedsOk(g, config, seeds)
  {
    NetClosed(g, now, decay);
    RoomForAll(ParamsOf(g, config, now, decay), AfterSeeding(g.nodes, seeds), seeds)
  }

  /** What the walks of 1..max_depth edges from the seeds bring to a node. */
  ghost function WalkSumAt(g: Graph, config: PropagationConfig, seeds: seq<Task>, now: int, decay: Decay,
                           n: NodeIdx): real
    requires WellFormed(g) && SeedsOk(g, config, seeds)
  {
    NetClosed(g, now, decay);
    SeedWalkSum(ParamsOf(g, config, now, decay), false, seeds, n)
  }

  /** How many walks of 0..max_depth-1 edges from the seeds have every message pass. */
  ghost function WalkCount(g: Graph, config: PropagationConfig, seeds: seq<Task>, now: int, decay: Decay): nat
    requires WellFormed(g) && SeedsOk(g, config, seeds)
  {
    NetClosed(g, now, decay);
    SeedWalkCount(ParamsOf(g, config, now, decay), seeds)
  }

  /** When no clamp can fire, the work of a pass is exactly one task per such walk. */
  lemma PassExactWork(g: Graph, config: PropagationConfig, seeds: seq<Task>, now: int, decay: Decay,
                      g': Graph, r: PropagationResult)
    requires WellFormed(g) && SeedsOk(g, config, seeds) && Pass(g, config, seeds, now, decay, g', r)
    requires RoomForPass(g, config, seeds, now, decay)
    ensures r.iterations == WalkCount(g, config, seeds, now, decay)
  {
    hide Drain;
    PassIsDrain(g, config, seeds, now, decay, g', r);
    PassIsWalkCount(ParamsOf(g, config, now, decay), AfterSeeding(g.nodes, seeds), seeds);
  }

  /** When no clamp can fire, each node ends at its baseline plus its sum over walks from the seeds. */
  lemma PassPathSum(g: Graph, config: PropagationConfig, seeds: seq<Task>, now: int, decay: Decay,
                    g': Graph, r: PropagationResult, n: NodeIdx)
    requires WellFormed(g) && SeedsOk(g, config, seeds) && Pass(g, config, seeds, now, decay, g', r)
    requires n in g.nodes && RoomForPass(g, config, seeds, now, decay)
    ensures g'.nodes[n].impliedProb == Baseline(g, seeds, n) + WalkSumAt(g, config, seeds, now, decay, n)
  {
    hide Drain;
    PassIsDrain(g, config, seeds, now, decay, g', r);
    PassIsWalkSum(ParamsOf(g, config, now, decay), AfterSeeding(g.nodes, seeds), seeds);
    assert n in SeedNodes(seeds) <==> exists k :: 0 <= k < |seeds| && seeds[k].node == n;
  }

  /** The same graph with its edges listed in another order. */
  ghost predicate SameEdges(links1: seq<Link>, links2: seq<Link>) {
    multiset(links1) == multiset(links2)
  }

  lemma {:induction false} OutArcsOrder(links1: seq<Link>, links2: seq<Link>, n: NodeIdx, now: int, decay: Decay)
    requires SameEdges(links1, links2)
    ensures multiset(OutArcs(links1, n, now, decay)) == multiset(OutArcs(links2, n, now, decay))
    decreases |links1|
  {
    if links1 == [] {
      assert |multiset(links2)| == 0;
    } else {
      var k := MatchFirst(links1, links2);
      OutArcsOrder(links1[1..], Without(links2, k), n, now, decay);
      OutArcsTakeOut(links2, k, n, now, decay);
    }
  }

  lemma {:induction false} OutArcsTakeOut(links: seq<Link>, k: nat, n: NodeIdx, now: int, decay: Decay)
    requires k < |links|
    ensures multiset(OutArcs(links, n, now, decay)) ==
      (if links[k].source == n then multiset{Arc(links[k].target, EffectiveWeightAt(links[k].edge, now, decay))}
       else multiset{}) + multiset(OutArcs(Without(links, k), n, now, decay))
  {
    if k == 0 {
      assert Without(links, 0) == links[1..];
    } else {
      OutArcsTakeOut(links[1..], k - 1, n, now, decay);
      assert Without(links, k)[1..] == Without(links[1..], k - 1);
      assert Without(links, k)[0] == links[0];
    }
  }

  /** When no clamp can fire, two passes over the same graph agree on every node,
      however the queue was seeded and however the edges are listed. */
  lemma PassDeterministic(g1: Graph, g2: Graph, config: PropagationConfig, seeds1: seq<Task>, seeds2: seq<Task>,
                          now: int, decay: Decay, g1': Graph, g2': Graph,
                          r1: PropagationResult, r2: PropagationResult)
    requires WellFormed(g1) && WellFormed(g2) && g2 == g1.(links := g2.links) && SameEdges(g1.links, g2.links)
    requires SeedsOk(g1, config, seeds1) && SeedsOk(g2, config, seeds2) && multiset(seeds1) == multiset(seeds2)
    requires Pass(g1, config, seeds1, now, decay, g1', r1) && Pass(g2, config, seeds2, now, decay, g2', r2)
    requires RoomForPass(g1, config, seeds1, now, decay)
    ensures g1'.nodes == g2'.nodes
  {
    hide Drain;
    PassIsDrain(g1, config, seeds1, now, decay, g1', r1);
    PassIsDrain(g2, config, seeds2, now, decay, g2', r2);
    var p1, p2 := ParamsOf(g1, config, now, decay), ParamsOf(g2, config, now, decay);
    var s1, s2 := Entry(g1, seeds1), Entry(g2, seeds2);
    forall n | n in p1.net ensures multiset(p1.net[n]) == multiset(p2.net[n]) {
      OutArcsOrder(g1.links, g2.links, n, now, decay);
    }
    SameSeedNodes(seeds1, seeds2);
    assert s1.implied == s2.implied;
    PassIsWalkSum(p1, s1.implied, seeds1);
    DrainOrderIrrelevant(p1, s1, p2, s2);
  }

  lemma SameSeedNodes(seeds1: seq<Task>, seeds2: seq<Task>)
    requires multiset(seeds1) == multiset(seeds2)
    ensures SeedNodes(seeds1) == SeedNodes(seeds2)
  {
    forall n ensures n in SeedNodes(seeds1) <==> n in SeedNodes(seeds2) {
      if n in SeedNodes(seeds1) {
        var k :| 0 <= k < |seeds1| && seeds1[k].node == n;
        assert seeds1[k] in multiset(seeds2);
      }
      if n in SeedNodes(seeds2) {
        var k :| 0 <= k < |seeds2| && seeds2[k].node == n;
        assert seeds2[k] in multiset(seeds1);
      }
    }
  }

  // ---------- every pass has an outcome ----------

  lemma {:induction false} ListSlots(touched: map<NodeIdx, (real, real)>) returns (slots: seq<NodeIdx>)
    ensures Distinct(slots) && forall n :: n in slots <==> n in touched
    decreases |touched|
  {
    if touched == map[] {
      slots := [];
    } else {
      var n :| n in touched;
      var rest := ListSlots(touched - {n});
      slots := [n] + rest;
    }
  }

  function Changes(nodes: map<NodeIdx, MarketNode>, touched: map<NodeIdx, (real, real)>, slots: seq<NodeIdx>)
    : (changes: seq<NodeChange>)
    requires forall k :: 0 <= k < |slots| ==> slots[k] in nodes && slots[k] in touched
    ensures |changes| == |slots|
  {
    seq(|slots|, k requires 0 <= k < |slots| =>
      NodeChange(nodes[slots[k]].marketId, touched[slots[k]].0, touched[slots[k]].1))
  }

  /** From every seeding a pass leads to some graph and some report. */
  lemma PassExists(g: Graph, config: PropagationConfig, seeds: seq<Task>, now: int, decay: Decay)
    returns (g': Graph, r: PropagationResult)
    requires WellFormed(g) && SeedsOk(g, config, seeds)
    ensures Pass(g, config, seeds, now, decay, g', r)
  {
    hide Drain;
    NetClosed(g, now, decay);
    var p := ParamsOf(g, config, now, decay);
    var d := Drain(p, Entry(g, seeds));
    DrainRecords(p, Entry(g, seeds), Entry(g, seeds).implied);
    var slots := ListSlots(d.touched);
    forall k | 0 <= k < |slots| ensures slots[k] in g.nodes && slots[k] in d.touched {
      assert slots[k] in slots;
    }
    var changes := Changes(g.nodes, d.touched, slots);
    var ids := seq(|changes|, k requires 0 <= k < |changes| => changes[k].marketId);
    assert ReportsTouched(g.nodes, d.touched, slots, changes);
    g' := g.(nodes := WithImplied(g.nodes, d.implied));
    r := PropagationResult(|changes|, d.iterations, !d.depthLimited, ids, changes);
  }
}
