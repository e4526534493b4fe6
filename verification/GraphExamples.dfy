/** Graphs an engine can hold, and passes over them that show what does not hold in general. */
module GraphExamples {
  import opened Wrappers
  import opened Sums
  import opened Propagation
  import opened PathSums
  import opened PathCounts
  import opened GraphTypes
  import opened MarketGraph
  import opened PathReach
  import opened GraphTheorems
  import opened GraphReports

  function Market(id: string, current: real, implied: real): MarketNode {
    MarketNode(id, "", current, None, None, 0.0, implied, FromApi, 0, [])
  }

  /** A fresh dependency of full confidence. */
  function Dependency(fromId: string, toId: string, weight: real): MarketEdge {
    MarketEdge(fromId, toId, weight, 1.0, Causal, 0, None)
  }

  const IDS: map<string, NodeIdx> := map["A" := 0, "B" := 1, "C" := 2]

  lemma DifferentIds()
    ensures "A" != "B" && "B" != "C" && "A" != "C"
  {
    assert "A"[0] != "B"[0] && "B"[0] != "C"[0] && "A"[0] != "C"[0];
  }

  lemma FullWeight(e: MarketEdge, now: int, decay: Decay)
    requires e.confidence == 1.0 && e.decayHalfLifeDays == None
    ensures EffectiveWeightAt(e, now, decay) == e.weight
  {
  }

  /** Three markets under the given nodes keep ids and slots in one-to-one correspondence. */
  lemma ThreeMarkets(a: MarketNode, b: MarketNode, c: MarketNode)
    requires a.marketId == "A" && b.marketId == "B" && c.marketId == "C"
    ensures IndexOk(map[0 := a, 1 := b, 2 := c], IDS)
  {
    DifferentIds();
  }

  lemma {:induction false} OutArcsStep(l: Link, links: seq<Link>, n: NodeIdx, now: int, decay: Decay)
    requires l.edge.confidence == 1.0 && l.edge.decayHalfLifeDays == None
    ensures OutArcs([l] + links, n, now, decay)
         == if l.source == n then [Arc(l.target, l.edge.weight)] + OutArcs(links, n, now, decay)
            else OutArcs(links, n, now, decay)
  {
    FullWeight(l.edge, now, decay);
    assert ([l] + links)[1..] == links;
  }

  // ---------- order matters once a clamp fires ----------

  /** Two drifted markets push a third, at its upper limit, up and down. */
  const TUG_LINKS: seq<Link> := [Link(0, 2, Dependency("A", "C", 1.0)), Link(1, 2, Dependency("B", "C", -1.0))]

  const TUG_GRAPH: Graph := Graph(
    map[0 := Market("A", 0.5, 0.0), 1 := Market("B", 0.5, 0.0), 2 := Market("C", 1.0, 1.0)], TUG_LINKS, IDS)

  const TUG_CONFIG: PropagationConfig := PropagationConfig(0.1, 0.1, 1.0, 1)

  const UP_DOWN: seq<Task> := [Task(0, 0.5, 0), Task(1, 0.5, 0)]
  const DOWN_UP: seq<Task> := [Task(1, 0.5, 0), Task(0, 0.5, 0)]

  lemma TugWellFormed()
    ensures WellFormed(TUG_GRAPH)
  {
    ThreeMarkets(Market("A", 0.5, 0.0), Market("B", 0.5, 0.0), Market("C", 1.0, 1.0));
    forall k | 0 <= k < 2 ensures LinkOk(TUG_GRAPH.nodes, TUG_LINKS[k]) {
      assert k == 0 || k == 1;
    }
  }

  lemma TugNet(now: int, decay: Decay)
    ensures ParamsOf(TUG_GRAPH, TUG_CONFIG, now, decay) == TUG
  {
    var second := [Link(1, 2, Dependency("B", "C", -1.0))];
    forall n | 0 <= n < 3 ensures OutArcs(TUG_LINKS, n, now, decay)
      == if n == 0 then [Arc(2, 1.0)] else if n == 1 then [Arc(2, -1.0)] else [] {
      assert TUG_LINKS == [Link(0, 2, Dependency("A", "C", 1.0))] + second;
      assert second == second + [];
      OutArcsStep(Link(0, 2, Dependency("A", "C", 1.0)), second, n, now, decay);
      OutArcsStep(Link(1, 2, Dependency("B", "C", -1.0)), [], n, now, decay);
    }
    assert NetOf(TUG_GRAPH, now, decay) == TUG.net;
  }

  lemma TwoSeeds(a: Task, b: Task)
    ensures SeedNodes([a, b]) == {a.node, b.node}
  {
    var seeds := [a, b];
    assert seeds[0] == a && seeds[1] == b;
    forall n ensures n in SeedNodes(seeds) <==> n == a.node || n == b.node {
    }
  }

  lemma TwoSeeding(g: Graph, config: PropagationConfig, a: Task, b: Task)
    requires IsSeed(g.nodes, config, a) && IsSeed(g.nodes, config, b) && a.node != b.node
    requires forall n :: n in g.nodes && !Settled(g.nodes[n], config) ==> n == a.node || n == b.node
    ensures IsSeeding(g, config, None, [a, b])
  {
    var seeds := [a, b];
    assert seeds[0] == a && seeds[1] == b;
    hide IsSeed, Settled;
  }

  /** The two orders are both seedings of a full pass: the id lookup decides which one happens. */
  lemma TugSeedings()
    ensures IsSeeding(TUG_GRAPH, TUG_CONFIG, None, UP_DOWN) && IsSeeding(TUG_GRAPH, TUG_CONFIG, None, DOWN_UP)
  {
    TwoSeeding(TUG_GRAPH, TUG_CONFIG, Task(0, 0.5, 0), Task(1, 0.5, 0));
    TwoSeeding(TUG_GRAPH, TUG_CONFIG, Task(1, 0.5, 0), Task(0, 0.5, 0));
  }

  lemma TugStart()
    ensures AfterSeeding(TUG_GRAPH.nodes, UP_DOWN) == TUG_START == AfterSeeding(TUG_GRAPH.nodes, DOWN_UP)
  {
    hide AfterSeeding, SeedNodes;
    TwoSeeds(Task(0, 0.5, 0), Task(1, 0.5, 0));
    TwoSeeds(Task(1, 0.5, 0), Task(0, 0.5, 0));
    StartFrom(UP_DOWN);
    StartFrom(DOWN_UP);
  }

  lemma StartFrom(seeds: seq<Task>)
    requires SeedNodes(seeds) == {0, 1}
    ensures AfterSeeding(TUG_GRAPH.nodes, seeds) == TUG_START
  {
    hide SeedNodes;
  }

  lemma UpDownPass(now: int, decay: Decay, g': Graph, r: PropagationResult)
    requires WellFormed(TUG_GRAPH) && SeedsOk(TUG_GRAPH, TUG_CONFIG, UP_DOWN)
    requires Pass(TUG_GRAPH, TUG_CONFIG, UP_DOWN, now, decay, g', r)
    ensures 2 in g'.nodes && g'.nodes[2].impliedProb == 0.5
  {
    hide Drain, Pass, WellFormed, ParamsOf, AfterSeeding, Recorded, ReportsTouched, InUnit;
    PassIsDrain(TUG_GRAPH, TUG_CONFIG, UP_DOWN, now, decay, g', r);
    TugNet(now, decay);
    TugStart();
    UpThenDown();
  }

  lemma DownUpPass(now: int, decay: Decay, g': Graph, r: PropagationResult)
    requires WellFormed(TUG_GRAPH) && SeedsOk(TUG_GRAPH, TUG_CONFIG, DOWN_UP)
    requires Pass(TUG_GRAPH, TUG_CONFIG, DOWN_UP, now, decay, g', r)
    ensures 2 in g'.nodes && g'.nodes[2].impliedProb == 1.0
    ensures r.nodeChanges == [NodeChange("C", 1.0, 1.0)]
  {
    hide Drain, Pass, WellFormed, ParamsOf, AfterSeeding, Recorded, ReportsTouched, InUnit;
    PassIsDrain(TUG_GRAPH, TUG_CONFIG, DOWN_UP, now, decay, g', r);
    TugNet(now, decay);
    TugStart();
    DownThenUp();
    OneReport(TUG_GRAPH.nodes, map[2 := (1.0, 1.0)], 2, r.nodeChanges);
  }

  lemma OneReport(nodes: map<NodeIdx, MarketNode>, touched: map<NodeIdx, (real, real)>, n: NodeIdx,
                  changes: seq<NodeChange>)
    requires touched.Keys == {n} && n in nodes && exists slots :: ReportsTouched(nodes, touched, slots, changes)
    ensures changes == [NodeChange(nodes[n].marketId, touched[n].0, touched[n].1)]
  {
    var slots :| ReportsTouched(nodes, touched, slots, changes);
    hide ReportsTouched;
    OneReportFrom(nodes, touched, n, slots, changes);
  }

  lemma OneReportFrom(nodes: map<NodeIdx, MarketNode>, touched: map<NodeIdx, (real, real)>, n: NodeIdx,
                      slots: seq<NodeIdx>, changes: seq<NodeChange>)
    requires touched.Keys == {n} && n in nodes && ReportsTouched(nodes, touched, slots, changes)
    ensures changes == [NodeChange(nodes[n].marketId, touched[n].0, touched[n].1)]
  {
    hide Distinct;
    OneSlot(slots, n);
    assert |changes| == 1 && slots[0] == n;
  }

  lemma OneSlot(slots: seq<NodeIdx>, n: NodeIdx)
    requires Distinct(slots) && forall m :: m in slots <==> m == n
    ensures slots == [n]
  {
    assert n in slots;
    assert |slots| >= 2 ==> slots[0] != slots[1];
    forall k | 0 <= k < |slots| ensures slots[k] == n {
      assert slots[k] in slots;
    }
  }

  /** One graph, one configuration, two passes from the same drifted markets: without a guard against clamps
      the order of the id lookup decides where C ends, at 0.5 or at 1.0, and a market can be
      reported although it ends where it started. */
  lemma OrderMatters(now: int, decay: Decay) returns (up: Graph, r1: PropagationResult, down: Graph,
                                                      r2: PropagationResult)
    ensures WellFormed(TUG_GRAPH)
    ensures IsSeeding(TUG_GRAPH, TUG_CONFIG, None, UP_DOWN) && IsSeeding(TUG_GRAPH, TUG_CONFIG, None, DOWN_UP)
    ensures Pass(TUG_GRAPH, TUG_CONFIG, UP_DOWN, now, decay, up, r1)
    ensures Pass(TUG_GRAPH, TUG_CONFIG, DOWN_UP, now, decay, down, r2)
    ensures up.nodes != down.nodes
    ensures r2.nodeChanges == [NodeChange("C", 1.0, 1.0)]
  {
    hide Pass;
    TugWellFormed();
    TugSeedings();
    up, r1 := PassExists(TUG_GRAPH, TUG_CONFIG, UP_DOWN, now, decay);
    down, r2 := PassExists(TUG_GRAPH, TUG_CONFIG, DOWN_UP, now, decay);
    UpDownPass(now, decay, up, r1);
    DownUpPass(now, decay, down, r2);
  }

  // ---------- more work than edges times depth ----------

  /** Three markets, each depending on both others. */
  const RING_LINKS: seq<Link> := [
    Link(0, 1, Dependency("A", "B", 1.0)), Link(0, 2, Dependency("A", "C", 1.0)),
    Link(1, 0, Dependency("B", "A", 1.0)), Link(1, 2, Dependency("B", "C", 1.0)),
    Link(2, 0, Dependency("C", "A", 1.0)), Link(2, 1, Dependency("C", "B", 1.0))]

  const RING_GRAPH: Graph := Graph(
    map[0 := Market("A", 0.5, 0.25), 1 := Market("B", 0.5, 0.5), 2 := Market("C", 0.5, 0.5)], RING_LINKS, IDS)

  const RING_CONFIG: PropagationConfig := PropagationConfig(0.1, 0.0001, 0.25, 6)

  const RING_SEED: seq<Task> := [Task(0, 0.25, 0)]

  const RING_NET: Net :=
    map[0 := [Arc(1, 1.0), Arc(2, 1.0)], 1 := [Arc(0, 1.0), Arc(2, 1.0)], 2 := [Arc(0, 1.0), Arc(1, 1.0)]]

  lemma RingLinksOk()
    ensures forall k :: 0 <= k < 6 ==> LinkOk(RING_GRAPH.nodes, RING_LINKS[k])
  {
    forall k | 0 <= k < 6 ensures LinkOk(RING_GRAPH.nodes, RING_LINKS[k]) {
      assert k == 0 || k == 1 || k == 2 || k == 3 || k == 4 || k == 5;
    }
  }

  lemma RingNoParallel()
    ensures NoParallel(RING_LINKS)
  {
    forall i, j | 0 <= i < j < 6 ensures !SamePair(RING_LINKS[i], RING_LINKS[j]) {
      assert i == 0 || i == 1 || i == 2 || i == 3 || i == 4;
    }
  }

  lemma RingWellFormed()
    ensures WellFormed(RING_GRAPH)
  {
    ThreeMarkets(Market("A", 0.5, 0.25), Market("B", 0.5, 0.5), Market("C", 0.5, 0.5));
    RingLinksOk();
    RingNoParallel();
    hide LinkOk, NoParallel, IndexOk;
  }

  lemma RingArcs(n: NodeIdx, now: int, decay: Decay)
    requires n < 3
    ensures OutArcs(RING_LINKS, n, now, decay) == RING_NET[n]
  {
    var l := RING_LINKS;
    assert l[5..] == [l[5]] + [] && l[4..] == [l[4]] + l[5..] && l[3..] == [l[3]] + l[4..];
    assert l[2..] == [l[2]] + l[3..] && l[1..] == [l[1]] + l[2..] && l == [l[0]] + l[1..];
    OutArcsStep(l[5], [], n, now, decay);
    OutArcsStep(l[4], l[5..], n, now, decay);
    OutArcsStep(l[3], l[4..], n, now, decay);
    OutArcsStep(l[2], l[3..], n, now, decay);
    OutArcsStep(l[1], l[2..], n, now, decay);
    OutArcsStep(l[0], l[1..], n, now, decay);
  }

  lemma RingNet(now: int, decay: Decay)
    ensures ParamsOf(RING_GRAPH, RING_CONFIG, now, decay) == Params(RING_NET, 0.25, 0.0001, 6)
  {
    forall n: NodeIdx | n in RING_GRAPH.nodes ensures OutArcs(RING_LINKS, n, now, decay) == RING_NET[n] {
      RingArcs(n, now, decay);
    }
    assert NetOf(RING_GRAPH, now, decay) == RING_NET;
  }

  lemma RingSeeding()
    ensures IsSeeding(RING_GRAPH, RING_CONFIG, Some(0), RING_SEED)
    ensures AfterSeeding(RING_GRAPH.nodes, RING_SEED) == map[0 := 0.5, 1 := 0.5, 2 := 0.5]
  {
    assert SeedNodes(RING_SEED) == {0} by {
      assert RING_SEED[0].node == 0;
    }
  }

  lemma Quarter(x: real)
    ensures Times(x, 0.25) == x / 4.0
  {
  }

  /** 0.25 shrinks to a quarter five times and still passes the threshold of 0.0001. */
  lemma RingCarries(p: Params)
    requires p.damping == 0.25 && p.threshold == 0.0001
    ensures Carries(p, 0.25, 5)
  {
    hide Times;
    Quarter(0.25);
    Quarter(0.0625);
    Quarter(0.015625);
    Quarter(0.00390625);
    Quarter(0.0009765625);
    assert Carries(p, 0.000244140625, 0);
    assert Carries(p, 0.0009765625, 1);
    assert Carries(p, 0.00390625, 2);
    assert Carries(p, 0.015625, 3);
    assert Carries(p, 0.0625, 4);
  }

  lemma BinaryTree()
    ensures Tree(2, 6) == 63
  {
    assert Tree(2, 1) == 1;
    assert Tree(2, 2) == 3;
    assert Tree(2, 3) == 7;
    assert Tree(2, 4) == 15;
    assert Tree(2, 5) == 31;
  }

  lemma RingClosed()
    ensures Closed(RING_NET) && Uniform(RING_NET, 2)
    ensures forall d, t :: Halving(Params(RING_NET, 0.25, t, d), 2)
  {
    Quarter(2.0);
  }

  lemma RingRoom()
    ensures Closed(RING_NET)
    ensures RoomForAll(Params(RING_NET, 0.25, 0.0001, 6), map[0 := 0.5, 1 := 0.5, 2 := 0.5], RING_SEED)
  {
    RingClosed();
    hide Closed, Halving, RoomForAll;
    HalvingRoom(Params(RING_NET, 0.25, 0.0001, 6), 2, map[0 := 0.5, 1 := 0.5, 2 := 0.5], Task(0, 0.25, 0));
  }

  /** The pass over the ring sets off the full binary tree of tasks. */
  lemma RingCount()
    ensures Closed(RING_NET) && SeedWalkCount(Params(RING_NET, 0.25, 0.0001, 6), RING_SEED) == 63
  {
    var p := Params(RING_NET, 0.25, 0.0001, 6);
    RingClosed();
    RingCarries(p);
    BinaryTree();
    hide Closed, Uniform, Carries, Tree, SeedWalkCount;
    BoundReached(p, 2, RING_SEED);
  }

  /** Six edges and a depth limit of six, but 63 tasks: more than edges times depth, and exactly the bound
      1 + 2 + ... + 2^5 that counts every walk. */
  lemma EdgesTimesDepthExceeded(now: int, decay: Decay) returns (g': Graph, r: PropagationResult)
    ensures WellFormed(RING_GRAPH) && IsSeeding(RING_GRAPH, RING_CONFIG, Some(0), RING_SEED)
    ensures Pass(RING_GRAPH, RING_CONFIG, RING_SEED, now, decay, g', r)
    ensures r.iterations == Tree(2, RING_CONFIG.maxDepth) > |RING_GRAPH.links| * RING_CONFIG.maxDepth
  {
    hide Pass, RoomForAll, SeedWalkCount, ParamsOf, NetOf, WellFormed;
    RingWellFormed();
    RingSeeding();
    g', r := PassExists(RING_GRAPH, RING_CONFIG, RING_SEED, now, decay);
    RingNet(now, decay);
    RingRoom();
    RingCount();
    assert RoomForPass(RING_GRAPH, RING_CONFIG, RING_SEED, now, decay);
    PassExactWork(RING_GRAPH, RING_CONFIG, RING_SEED, now, decay, g', r);
    BinaryTree();
  }

  // ---------- a seed reached again through a cycle ----------

  /** From A to B and back. */
  const THERE_AND_BACK: seq<Arc> := [Arc(1, 1.0), Arc(0, 1.0)]

  lemma RoundTripPasses()
    ensures WalkEndsAt(Params(RING_NET, 0.25, 0.0001, 6), RING_SEED, 0)
  {
    var p := Params(RING_NET, 0.25, 0.0001, 6);
    var w := THERE_AND_BACK;
    assert w[1..] == [Arc(0, 1.0)] && w[1..][1..] == [];
    assert IsWalk(p.net, 0, []) && IsWalk(p.net, 1, w[1..]) && IsWalk(p.net, 0, w);
    assert Message(p, 1.0, 0.25) == 0.0625 && Message(p, 1.0, 0.0625) == 0.015625;
    assert EveryMessagePasses(p, w[1..], 0.0625);
    assert WalkTo(p, RING_SEED[0], w, 0);
  }

  /** The pass over the ring reports its own seed, and with the price it was reset to, 0.5, as the value "before":
      before the pass A stood at 0.25. */
  lemma SeedReportedReset(now: int, decay: Decay) returns (g': Graph, r: PropagationResult, k: nat)
    ensures WellFormed(RING_GRAPH) && IsSeeding(RING_GRAPH, RING_CONFIG, Some(0), RING_SEED)
    ensures Pass(RING_GRAPH, RING_CONFIG, RING_SEED, now, decay, g', r)
    ensures k < |r.nodeChanges| && r.nodeChanges[k].marketId == RING_GRAPH.nodes[0].marketId
    ensures r.nodeChanges[k].oldImpliedProb == 0.5 != RING_GRAPH.nodes[0].impliedProb
  {
    hide Pass, RoomForAll, SeedWalkCount, ParamsOf, NetOf, WellFormed, WalkEndsAt;
    RingWellFormed();
    RingSeeding();
    RingNet(now, decay);
    RingRoom();
    g', r := PassExists(RING_GRAPH, RING_CONFIG, RING_SEED, now, decay);
    assert RoomForPass(RING_GRAPH, RING_CONFIG, RING_SEED, now, decay);
    RoundTripPasses();
    ReportedIff(RING_GRAPH, RING_CONFIG, RING_SEED, now, decay, g', r, 0);
    PassRecord(RING_GRAPH, RING_CONFIG, RING_SEED, now, decay, g', r);
    k :| 0 <= k < |r.nodeChanges| && r.nodeChanges[k].marketId == RING_GRAPH.nodes[0].marketId;
    assert RING_SEED[0].node == 0;
    assert IDS["A"] == 0;
  }

  // ---------- not converged, although nothing was cut off ----------

  /** B depends on A and nothing depends on B. */
  const LINE_LINKS: seq<Link> := [Link(0, 1, Dependency("A", "B", 1.0))]

  const LINE_GRAPH: Graph := Graph(
    map[0 := Market("A", 0.5, 0.25), 1 := Market("B", 0.5, 0.5), 2 := Market("C", 0.5, 0.5)], LINE_LINKS, IDS)

  function LineConfig(depth: nat): PropagationConfig {
    PropagationConfig(0.1, 0.0001, 0.25, depth)
  }

  const LINE_NET: Net := map[0 := [Arc(1, 1.0)], 1 := [], 2 := []]

  lemma LineWellFormed()
    ensures WellFormed(LINE_GRAPH)
  {
    ThreeMarkets(Market("A", 0.5, 0.25), Market("B", 0.5, 0.5), Market("C", 0.5, 0.5));
    assert LinkOk(LINE_GRAPH.nodes, LINE_LINKS[0]);
  }

  lemma LineNet(depth: nat, now: int, decay: Decay)
    ensures ParamsOf(LINE_GRAPH, LineConfig(depth), now, decay) == Params(LINE_NET, 0.25, 0.0001, depth)
  {
    assert LINE_LINKS == [LINE_LINKS[0]] + [];
    forall n: NodeIdx | n in LINE_GRAPH.nodes ensures OutArcs(LINE_LINKS, n, now, decay) == LINE_NET[n] {
      OutArcsStep(LINE_LINKS[0], [], n, now, decay);
    }
    assert NetOf(LINE_GRAPH, now, decay) == LINE_NET;
  }

  lemma LineSeeding(depth: nat)
    ensures IsSeeding(LINE_GRAPH, LineConfig(depth), Some(0), RING_SEED)
    ensures AfterSeeding(LINE_GRAPH.nodes, RING_SEED) == map[0 := 0.5, 1 := 0.5, 2 := 0.5]
  {
    assert SeedNodes(RING_SEED) == {0} by {
      assert RING_SEED[0].node == 0;
    }
  }

  lemma LineClosed()
    ensures Closed(LINE_NET) && forall d, t :: Halving(Params(LINE_NET, 0.25, t, d), 1)
  {
    Quarter(1.0);
  }

  lemma LineRoom(depth: nat)
    ensures Closed(LINE_NET)
    ensures RoomForAll(Params(LINE_NET, 0.25, 0.0001, depth), map[0 := 0.5, 1 := 0.5, 2 := 0.5], RING_SEED)
  {
    LineClosed();
    hide Closed, Halving, RoomForAll;
    HalvingRoom(Params(LINE_NET, 0.25, 0.0001, depth), 1, map[0 := 0.5, 1 := 0.5, 2 := 0.5], Task(0, 0.25, 0));
  }

  /** The only walk is the one edge. */
  lemma LineWalks(depth: nat)
    requires depth >= 1
    ensures Closed(LINE_NET) && Walks(LINE_NET, 0, depth) == [[Arc(1, 1.0)]]
    ensures FullWalk(Params(LINE_NET, 0.25, 0.0001, depth), RING_SEED) <==> depth == 1
  {
    LineClosed();
    var p, w := Params(LINE_NET, 0.25, 0.0001, depth), [Arc(1, 1.0)];
    assert Walks(LINE_NET, 1, depth - 1) == [];
    assert w[1..] == [];
    assert WalksVia(LINE_NET, w[1..], depth) == [];
    assert Walks(LINE_NET, 0, depth) == WalksVia(LINE_NET, w, depth) == [w];
    if depth == 1 {
      assert IsWalk(p.net, 1, w[1..]) && IsWalk(p.net, 0, w);
      assert Message(p, 1.0, 0.25) == 0.0625;
      assert PassingWalk(p, RING_SEED[0], w);
    }
    if FullWalk(p, RING_SEED) {
      var k, u :| 0 <= k < |RING_SEED| && PassingWalk(p, RING_SEED[k], u) && |u| == depth;
      WalksComplete(LINE_NET, 0, depth, u);
      assert u == w;
    }
  }

  lemma LineSum(depth: nat, v: NodeIdx)
    requires depth >= 1
    ensures Closed(LINE_NET)
    ensures SeedWalkSum(Params(LINE_NET, 0.25, 0.0001, depth), false, RING_SEED, v)
         == SeedWalkSum(Params(LINE_NET, 0.25, 0.0001, 1), false, RING_SEED, v)
  {
    var p1, p2, w := Params(LINE_NET, 0.25, 0.0001, 1), Params(LINE_NET, 0.25, 0.0001, depth), [Arc(1, 1.0)];
    LineWalks(1);
    LineWalks(depth);
    SingleArcTerm(p1, false, w[0], 0.25, v);
    SingleArcTerm(p2, false, w[0], 0.25, v);
    assert RING_SEED[1..] == [];
  }

  lemma LinePass(depth: nat, now: int, decay: Decay) returns (g': Graph, r: PropagationResult)
    requires depth >= 1
    ensures WellFormed(LINE_GRAPH) && IsSeeding(LINE_GRAPH, LineConfig(depth), Some(0), RING_SEED)
    ensures Pass(LINE_GRAPH, LineConfig(depth), RING_SEED, now, decay, g', r)
    ensures r.converged <==> depth > 1
    ensures Closed(LINE_NET) && SameButImplied(LINE_GRAPH.nodes, g'.nodes)
    ensures forall v :: v in g'.nodes ==>
      g'.nodes[v].impliedProb == 0.5 + SeedWalkSum(Params(LINE_NET, 0.25, 0.0001, 1), false, RING_SEED, v)
  {
    hide Pass, RoomForAll, ParamsOf, NetOf, WellFormed, FullWalk, SeedWalkSum;
    LineWellFormed();
    LineSeeding(depth);
    LineNet(depth, now, decay);
    LineRoom(depth);
    LineWalks(depth);
    g', r := PassExists(LINE_GRAPH, LineConfig(depth), RING_SEED, now, decay);
    assert RoomForPass(LINE_GRAPH, LineConfig(depth), RING_SEED, now, decay);
    ConvergedIff(LINE_GRAPH, LineConfig(depth), RING_SEED, now, decay, g', r);
    PassKeepsGraph(LINE_GRAPH, LineConfig(depth), RING_SEED, now, decay, g', r);
    forall v | v in g'.nodes ensures g'.nodes[v].impliedProb
      == 0.5 + SeedWalkSum(Params(LINE_NET, 0.25, 0.0001, 1), false, RING_SEED, v) {
      PassPathSum(LINE_GRAPH, LineConfig(depth), RING_SEED, now, decay, g', r, v);
      LineSum(depth, v);
      assert RING_SEED[0].node == 0;
    }
  }

  /** At max_depth 1 the one message ends at a market without dependents, and the pass reports that the
      depth limit cut it off; with any larger limit it converges, to the same graph. */
  lemma NothingCutOff(depth: nat, now: int, decay: Decay)
    returns (g1: Graph, r1: PropagationResult, g2: Graph, r2: PropagationResult)
    requires depth > 1
    ensures WellFormed(LINE_GRAPH) && IsSeeding(LINE_GRAPH, LineConfig(1), Some(0), RING_SEED)
    ensures Pass(LINE_GRAPH, LineConfig(1), RING_SEED, now, decay, g1, r1)
    ensures Pass(LINE_GRAPH, LineConfig(depth), RING_SEED, now, decay, g2, r2)
    ensures !r1.converged && r2.converged && g1.nodes == g2.nodes
  {
    hide Pass, WellFormed, SeedWalkSum, IsSeeding;
    g1, r1 := LinePass(1, now, decay);
    g2, r2 := LinePass(depth, now, decay);
  }
}
