/** Entities of the market graph and the facts about plain graph values. */
module GraphTypes {
  import opened Wrappers
  import opened Sums
  import opened Propagation

  datatype UpdateSource = FromApi | FromManual | FromNews | FromPropagation | FromSimulation

  datatype EdgeType = Causal | Statistical | Semantic | Manual

  datatype MarketNode = MarketNode(
    marketId: string,
    title: string,
    currentProb: real,
    volume: Option<real>,
    resolutionDate: Option<string>,
    ourPosition: real,
    impliedProb: real,
    lastSource: UpdateSource,
    lastUpdate: int,
    tags: seq<string>)

  datatype MarketEdge = MarketEdge(
    fromId: string,
    toId: string,
    weight: real,
    confidence: real,
    edgeType: EdgeType,
    createdAt: int,
    decayHalfLifeDays: Option<real>)

  datatype PropagationConfig = PropagationConfig(
    changeThreshold: real,
    convergenceThreshold: real,
    dampingFactor: real,
    maxDepth: nat)

  datatype GraphSnapshot = GraphSnapshot(nodes: seq<MarketNode>, edges: seq<MarketEdge>, config: PropagationConfig)

  datatype GraphError =
    | InvalidProbability(p: real)
    | InvalidWeight(w: real)
    | InvalidConfidence(c: real)
    | MarketNotFound(id: string)
    | EdgeNotFound(fromId: string, toId: string)

  datatype NodeChange = NodeChange(marketId: string, oldImpliedProb: real, newImpliedProb: real)

  datatype PropagationResult = PropagationResult(
    nodesUpdated: nat,
    iterations: nat,
    converged: bool,
    updatedNodeIds: seq<string>,
    nodeChanges: seq<NodeChange>)

  /** An edge of the directed graph, between node slots. */
  datatype Link = Link(source: NodeIdx, target: NodeIdx, edge: MarketEdge)

  /** The time decay `e^(-age * ln 2 / halfLife)` as a given function of age and half-life in days. */
  type Decay = (real, real) -> real

  function DecayFactor(e: MarketEdge, now: int, decay: Decay): real {
    match e.decayHalfLifeDays
    case Some(halfLife) => if halfLife > 0.0 then decay((now - e.createdAt) as real / 86400.0, halfLife) else 1.0
    case None => 1.0
  }

  function EffectiveWeightAt(e: MarketEdge, now: int, decay: Decay): real {
    e.weight * e.confidence * DecayFactor(e, now, decay)
  }

  /** Node slots, edges and the id lookup, as one value. */
  datatype Graph = Graph(nodes: map<NodeIdx, MarketNode>, links: seq<Link>, indexMap: map<string, NodeIdx>)

  predicate SamePair(k: Link, l: Link) {
    k.source == l.source && k.target == l.target
  }

  ghost predicate NoParallel(links: seq<Link>) {
    forall i, j :: 0 <= i < j < |links| ==> !SamePair(links[i], links[j])
  }

  predicate InRange(e: MarketEdge) {
    -1.0 <= e.weight <= 1.0 && 0.0 <= e.confidence <= 1.0
  }

  ghost predicate LinkOk(nodes: map<NodeIdx, MarketNode>, l: Link) {
    && l.source in nodes && l.target in nodes
    && l.edge.fromId == nodes[l.source].marketId
    && l.edge.toId == nodes[l.target].marketId
    && InRange(l.edge)
  }

  ghost predicate IndexOk(nodes: map<NodeIdx, MarketNode>, indexMap: map<string, NodeIdx>) {
    && (forall id :: id in indexMap ==> indexMap[id] in nodes && nodes[indexMap[id]].marketId == id)
    && (forall n :: n in nodes ==> nodes[n].marketId in indexMap && indexMap[nodes[n].marketId] == n)
  }

  /** The id lookup is a bijection with the live slots, at most one edge per ordered pair,
      edge ids name their endpoints, weights and confidences are in range. */
  ghost predicate WellFormed(g: Graph) {
    && IndexOk(g.nodes, g.indexMap)
    && NoParallel(g.links)
    && forall k :: 0 <= k < |g.links| ==> LinkOk(g.nodes, g.links[k])
  }

  // ---------- what the graph means, without slots ----------

  ghost function NodesById(g: Graph): (m: map<string, MarketNode>)
    requires IndexOk(g.nodes, g.indexMap)
    ensures forall id :: id in m ==> m[id].marketId == id
  {
    map id | id in g.indexMap :: g.nodes[g.indexMap[id]]
  }

  ghost function EdgeSet(links: seq<Link>): set<MarketEdge> {
    set k | 0 <= k < |links| :: links[k].edge
  }

  predicate OnPair(e: MarketEdge, fromId: string, toId: string) {
    e.fromId == fromId && e.toId == toId
  }

  /** Two well-formed edges with the same ids lie on the same slots. */
  lemma PairById(g: Graph, i: nat, j: nat)
    requires WellFormed(g) && i < |g.links| && j < |g.links|
    requires OnPair(g.links[i].edge, g.links[j].edge.fromId, g.links[j].edge.toId)
    ensures i == j
  {
    assert LinkOk(g.nodes, g.links[i]) && LinkOk(g.nodes, g.links[j]);
    assert SamePair(g.links[i], g.links[j]);
  }

  /** At most one edge per ordered pair of ids. */
  lemma EdgeUnique(g: Graph, e1: MarketEdge, e2: MarketEdge)
    requires WellFormed(g) && e1 in EdgeSet(g.links) && e2 in EdgeSet(g.links)
    requires e1.fromId == e2.fromId && e1.toId == e2.toId
    ensures e1 == e2
  {
    var i :| 0 <= i < |g.links| && g.links[i].edge == e1;
    var j :| 0 <= j < |g.links| && g.links[j].edge == e2;
    PairById(g, i, j);
  }

  // ---------- slots ----------

  /** A slot above every used one. */
  lemma {:induction false} FreeSlot(used: set<NodeIdx>) returns (n: NodeIdx)
    ensures n !in used && forall u :: u in used ==> u < n
    decreases used
  {
    n := 0;
    if used != {} {
      var x :| x in used;
      n := FreeSlot(used - {x});
      if n <= x { n := x + 1; }
      forall u | u in used ensures u < n {
        assert u == x || u in used - {x};
      }
    }
  }

  // ---------- removal of a node's edges ----------

  function KeepClear(links: seq<Link>, n: NodeIdx): seq<Link> {
    if links == [] then []
    else if links[0].source == n || links[0].target == n then KeepClear(links[1..], n)
    else [links[0]] + KeepClear(links[1..], n)
  }

  lemma {:induction false} KeepClearMembers(links: seq<Link>, n: NodeIdx)
    ensures forall l :: l in KeepClear(links, n) <==> l in links && l.source != n && l.target != n
  {
    if links != [] {
      KeepClearMembers(links[1..], n);
    }
  }

  lemma {:induction false} KeepClearNoParallel(links: seq<Link>, n: NodeIdx)
    requires NoParallel(links)
    ensures NoParallel(KeepClear(links, n))
  {
    if links != [] {
      KeepClearNoParallel(links[1..], n);
      KeepClearMembers(links[1..], n);
      var rest := KeepClear(links[1..], n);
      forall j | 0 <= j < |rest| ensures !SamePair(links[0], rest[j]) {
        assert rest[j] in links[1..];
      }
    }
  }

  // ---------- the propagation view ----------

  function OutArcs(links: seq<Link>, n: NodeIdx, now: int, decay: Decay): seq<Arc> {
    if links == [] then []
    else if links[0].source == n then
      [Arc(links[0].target, EffectiveWeightAt(links[0].edge, now, decay))] + OutArcs(links[1..], n, now, decay)
    else OutArcs(links[1..], n, now, decay)
  }

  lemma {:induction false} OutArcsMembers(links: seq<Link>, n: NodeIdx, now: int, decay: Decay)
    ensures forall a :: a in OutArcs(links, n, now, decay) <==>
      exists l :: l in links && l.source == n && a == Arc(l.target, EffectiveWeightAt(l.edge, now, decay))
  {
    if links != [] {
      OutArcsMembers(links[1..], n, now, decay);
      forall a ensures a in OutArcs(links, n, now, decay) <==>
        exists l :: l in links && l.source == n && a == Arc(l.target, EffectiveWeightAt(l.edge, now, decay))
      {
        if l :| l in links && l.source == n && a == Arc(l.target, EffectiveWeightAt(l.edge, now, decay)) {
          assert l == links[0] || l in links[1..];
        }
      }
    }
  }

  lemma {:induction false} OutArcsDistinct(links: seq<Link>, n: NodeIdx, now: int, decay: Decay)
    requires NoParallel(links)
    ensures Distinct(OutArcs(links, n, now, decay))
  {
    if links != [] {
      OutArcsDistinct(links[1..], n, now, decay);
      OutArcsMembers(links[1..], n, now, decay);
      var l := links[0];
      if l.source == n {
        var a := Arc(l.target, EffectiveWeightAt(l.edge, now, decay));
        if a in OutArcs(links[1..], n, now, decay) {
          var m :| m in links[1..] && m.source == n && a == Arc(m.target, EffectiveWeightAt(m.edge, now, decay));
          assert SamePair(l, m);
        }
        DistinctAppend([a], OutArcs(links[1..], n, now, decay));
      }
    }
  }

  ghost function NetOf(g: Graph, now: int, decay: Decay): Net {
    map n | n in g.nodes :: OutArcs(g.links, n, now, decay)
  }

  ghost function ParamsOf(g: Graph, config: PropagationConfig, now: int, decay: Decay): Params {
    Params(NetOf(g, now, decay), config.dampingFactor, config.convergenceThreshold, config.maxDepth)
  }

  lemma NetClosed(g: Graph, now: int, decay: Decay)
    requires WellFormed(g)
    ensures Closed(NetOf(g, now, decay))
    ensures forall n :: n in NetOf(g, now, decay) ==> Distinct(NetOf(g, now, decay)[n])
  {
    var net := NetOf(g, now, decay);
    forall n | n in net ensures ArcsWithin(net, net[n]) && Distinct(net[n]) {
      OutArcsMembers(g.links, n, now, decay);
      OutArcsDistinct(g.links, n, now, decay);
      forall k | 0 <= k < |net[n]| ensures net[n][k].target in net {
        assert net[n][k] in OutArcs(g.links, n, now, decay);
        var l :| l in g.links && l.source == n && net[n][k] == Arc(l.target, EffectiveWeightAt(l.edge, now, decay));
        assert LinkOk(g.nodes, l);
      }
    }
  }

  ghost function ImpliedOf(nodes: map<NodeIdx, MarketNode>): map<NodeIdx, real> {
    map n | n in nodes :: nodes[n].impliedProb
  }

  ghost function WithImplied(nodes: map<NodeIdx, MarketNode>, implied: map<NodeIdx, real>): map<NodeIdx, MarketNode>
    requires implied.Keys == nodes.Keys
  {
    map n | n in nodes :: nodes[n].(impliedProb := implied[n])
  }

  ghost predicate SameButImplied(before: map<NodeIdx, MarketNode>, after: map<NodeIdx, MarketNode>) {
    && after.Keys == before.Keys
    && forall n :: n in before ==> after[n] == before[n].(impliedProb := after[n].impliedProb)
  }

  /** Replacing only `implied_prob` values keeps the graph well formed. */
  lemma WithImpliedWellFormed(g: Graph, implied: map<NodeIdx, real>)
    requires WellFormed(g) && implied.Keys == g.nodes.Keys
    ensures WellFormed(g.(nodes := WithImplied(g.nodes, implied)))
  {
    var nodes := WithImplied(g.nodes, implied);
    assert forall n :: n in nodes ==> nodes[n].marketId == g.nodes[n].marketId;
    forall k | 0 <= k < |g.links| ensures LinkOk(nodes, g.links[k]) {
      assert LinkOk(g.nodes, g.links[k]);
    }
  }
}
