/** The market graph engine: keyed upserts, removal, snapshots and propagation. */
module MarketGraph {
  import opened Wrappers
  import opened Sums
  import opened Propagation
  import opened GraphTypes

  /** Queue entries that start a pass: drifted nodes with their drift, at depth 0. */
  ghost predicate IsSeeding(g: Graph, config: PropagationConfig, from: Option<NodeIdx>, seeds: seq<Task>) {
    && (forall k :: 0 <= k < |seeds| ==> IsSeed(g.nodes, config, seeds[k]))
    && match from
       case Some(n) => n in g.nodes && |seeds| == 1 && seeds[0].node == n
       case None =>
         && (forall i, j :: 0 <= i < j < |seeds| ==> seeds[i].node != seeds[j].node)
         && (forall n :: n in g.nodes && !Settled(g.nodes[n], config) ==>
               Queued(seeds, n))
  }

  /** The value is closer to the market's price than the threshold, whichever of the two is higher. */
  ghost predicate Settled(node: MarketNode, config: PropagationConfig) {
    -config.changeThreshold < node.currentProb - node.impliedProb < config.changeThreshold
  }

  predicate Drifted(node: MarketNode, config: PropagationConfig): (drifted: bool)
    ensures drifted <==> !Settled(node, config)
  {
    Abs(node.currentProb - node.impliedProb) >= config.changeThreshold
  }

  ghost predicate IsSeed(nodes: map<NodeIdx, MarketNode>, config: PropagationConfig, t: Task) {
    && t.node in nodes && t.depth == 0
    && t.delta == nodes[t.node].currentProb - nodes[t.node].impliedProb
    && !Settled(nodes[t.node], config)
  }

  ghost predicate Queued(seeds: seq<Task>, n: NodeIdx) {
    exists k :: 0 <= k < |seeds| && seeds[k].node == n
  }

  lemma QueuedSnoc(seeds: seq<Task>, t: Task)
    ensures forall n :: Queued(seeds + [t], n) <==> Queued(seeds, n) || n == t.node
  {
    forall n ensures Queued(seeds + [t], n) <==> Queued(seeds, n) || n == t.node {
      if Queued(seeds, n) {
        var k :| 0 <= k < |seeds| && seeds[k].node == n;
        assert (seeds + [t])[k] == seeds[k];
      }
      assert (seeds + [t])[|seeds|] == t;
    }
  }

  lemma SeedOf(nodes: map<NodeIdx, MarketNode>, config: PropagationConfig, n: NodeIdx)
    requires n in nodes && Drifted(nodes[n], config)
    ensures IsSeed(nodes, config, Task(n, nodes[n].currentProb - nodes[n].impliedProb, 0))
  {
  }

  ghost function SeedNodes(seeds: seq<Task>): set<NodeIdx> {
    set k | 0 <= k < |seeds| :: seeds[k].node
  }

  /** Node values when the queue loop starts: seeds are reset to their market price. */
  ghost function AfterSeeding(nodes: map<NodeIdx, MarketNode>, seeds: seq<Task>): map<NodeIdx, real> {
    map n | n in nodes :: if n in SeedNodes(seeds) then nodes[n].currentProb else nodes[n].impliedProb
  }

  /** One change record per touched node: its id, its value before its first message and its final value. */
  ghost predicate ReportsTouched(nodes: map<NodeIdx, MarketNode>, touched: map<NodeIdx, (real, real)>,
                                 slots: seq<NodeIdx>, changes: seq<NodeChange>) {
    && Distinct(slots) && |slots| == |changes|
    && (forall n :: n in slots <==> n in touched)
    && (forall k :: 0 <= k < |slots| ==>
          slots[k] in nodes && slots[k] in touched
          && changes[k] == NodeChange(nodes[slots[k]].marketId, touched[slots[k]].0, touched[slots[k]].1))
  }

  /** The meaning of one pass from the given seeds. */
  ghost predicate Pass(g: Graph, config: PropagationConfig, seeds: seq<Task>, now: int, decay: Decay,
                       g': Graph, r: PropagationResult)
    requires WellFormed(g) && forall k :: 0 <= k < |seeds| ==> seeds[k].node in g.nodes
  {
    NetClosed(g, now, decay);
    var d := Drain(ParamsOf(g, config, now, decay), Start(AfterSeeding(g.nodes, seeds), seeds));
    && g' == g.(nodes := WithImplied(g.nodes, d.implied))
    && r.iterations == d.iterations && r.converged == !d.depthLimited
    && r.nodesUpdated == |r.nodeChanges| == |r.updatedNodeIds|
    && (forall k :: 0 <= k < |r.nodeChanges| ==> r.updatedNodeIds[k] == r.nodeChanges[k].marketId)
    && exists slots :: ReportsTouched(g.nodes, d.touched, slots, r.nodeChanges)
  }

  /** Taking out a node with its edges keeps the graph well formed and removes just the edges naming it. */
  lemma RemoveNode(g: Graph, id: string)
    requires WellFormed(g) && id in g.indexMap
    ensures var n := g.indexMap[id];
      var links := KeepClear(g.links, n);
      && WellFormed(Graph(g.nodes - {n}, links, g.indexMap - {id}))
      && EdgeSet(links) == set e | e in EdgeSet(g.links) && e.fromId != id && e.toId != id
  {
    var n := g.indexMap[id];
    var nodes, links := g.nodes - {n}, KeepClear(g.links, n);
    KeepClearMembers(g.links, n);
    KeepClearNoParallel(g.links, n);
    forall k | 0 <= k < |links| ensures LinkOk(nodes, links[k]) {
      assert links[k] in g.links;
      assert LinkOk(g.nodes, links[k]);
    }
    forall e ensures e in EdgeSet(links) <==> e in EdgeSet(g.links) && e.fromId != id && e.toId != id {
      if e in EdgeSet(links) {
        var k :| 0 <= k < |links| && links[k].edge == e;
        assert links[k] in g.links && LinkOk(g.nodes, links[k]);
      }
      if e in EdgeSet(g.links) && e.fromId != id && e.toId != id {
        var k :| 0 <= k < |g.links| && g.links[k].edge == e;
        assert LinkOk(g.nodes, g.links[k]);
        assert g.links[k] in links;
      }
    }
  }

  /** Taking out the edge of a pair keeps the graph well formed and removes just that edge. */
  lemma RemoveAt(g: Graph, k: nat, fromId: string, toId: string)
    requires WellFormed(g) && k < |g.links|
    requires fromId in g.indexMap && toId in g.indexMap
    requires g.links[k].source == g.indexMap[fromId] && g.links[k].target == g.indexMap[toId]
    ensures WellFormed(g.(links := Without(g.links, k)))
    ensures OnPair(g.links[k].edge, fromId, toId) && g.links[k].edge in EdgeSet(g.links)
    ensures EdgeSet(Without(g.links, k)) == set e | e in EdgeSet(g.links) && !OnPair(e, fromId, toId)
  {
    var rest := Without(g.links, k);
    assert LinkOk(g.nodes, g.links[k]);
    forall j | 0 <= j < |rest| ensures LinkOk(g.nodes, rest[j]) {
      assert LinkOk(g.nodes, g.links[if j < k then j else j + 1]);
    }
    forall e ensures e in EdgeSet(rest) <==> e in EdgeSet(g.links) && !OnPair(e, fromId, toId) {
      RemoveAtMember(g, k, fromId, toId, e);
    }
  }

  lemma EdgeWithout(links: seq<Link>, k: nat, i: nat)
    requires k < |links| && i < |links| && i != k
    ensures links[i].edge in EdgeSet(Without(links, k))
  {
    var rest := Without(links, k);
    assert rest[if i < k then i else i - 1] == links[i];
  }

  lemma EdgeOfWithout(links: seq<Link>, k: nat, e: MarketEdge) returns (i: nat)
    requires k < |links| && e in EdgeSet(Without(links, k))
    ensures i < |links| && i != k && links[i].edge == e
  {
    var j :| 0 <= j < |Without(links, k)| && Without(links, k)[j].edge == e;
    i := if j < k then j else j + 1;
  }

  lemma RemoveAtMember(g: Graph, k: nat, fromId: string, toId: string, e: MarketEdge)
    requires WellFormed(g) && k < |g.links| && OnPair(g.links[k].edge, fromId, toId)
    ensures e in EdgeSet(Without(g.links, k)) <==> e in EdgeSet(g.links) && !OnPair(e, fromId, toId)
  {
    hide WellFormed, Without;
    if e in EdgeSet(Without(g.links, k)) {
      var i := EdgeOfWithout(g.links, k, e);
      if OnPair(e, fromId, toId) { PairById(g, i, k); }
    }
    if e in EdgeSet(g.links) && !OnPair(e, fromId, toId) {
      var i :| 0 <= i < |g.links| && g.links[i].edge == e;
      EdgeWithout(g.links, k, i);
    }
  }

  /** An update of a known market keeps the engine-managed fields. */
  function Upsert(markets: map<string, MarketNode>, node: MarketNode): map<string, MarketNode> {
    markets[node.marketId :=
      if node.marketId in markets
      then node.(impliedProb := markets[node.marketId].impliedProb, ourPosition := markets[node.marketId].ourPosition)
      else node]
  }

  const NO_PROPAGATION: PropagationResult := PropagationResult(0, 0, true, [], [])

  class MarketGraphEngine {
    var nodes: map<NodeIdx, MarketNode>
    var links: seq<Link>
    var indexMap: map<string, NodeIdx>
    var config: PropagationConfig

    ghost function View(): Graph
      reads this
    {
      Graph(nodes, links, indexMap)
    }

    ghost predicate Valid()
      reads this
    {
      WellFormed(View())
    }

    ghost function Markets(): map<string, MarketNode>
      requires Valid()
      reads this
    {
      NodesById(View())
    }

    ghost function Edges(): set<MarketEdge>
      reads this
    {
      EdgeSet(links)
    }

    constructor (config: PropagationConfig)
      ensures Valid() && Markets() == map[] && Edges() == {} && this.config == config
    {
      nodes := map[];
      links := [];
      indexMap := map[];
      this.config := config;
    }

    // ---------- markets ----------

    /** Insert a market or update it in place; an update keeps `implied_prob` and `our_position`. */
    method AddMarket(node: MarketNode) returns (slot: NodeIdx)
      requires Valid()
      modifies this`nodes, this`indexMap
      ensures Valid() && node.marketId in indexMap && slot == indexMap[node.marketId]
      ensures Markets() == Upsert(old(Markets()), node)
    {
      ghost var before := View();
      if node.marketId in indexMap {
        slot := indexMap[node.marketId];
        var saved := nodes[slot];
        nodes := nodes[slot := node.(impliedProb := saved.impliedProb, ourPosition := saved.ourPosition)];
      } else {
        ghost var free := FreeSlot(nodes.Keys);
        slot :| slot !in nodes;
        nodes := nodes[slot := node];
        indexMap := indexMap[node.marketId := slot];
      }
      forall k | 0 <= k < |links| ensures LinkOk(nodes, links[k]) {
        assert LinkOk(before.nodes, links[k]);
      }
    }

    /** Remove a market and every edge incident to it. */
    method RemoveMarket(id: string) returns (res: Result<(), GraphError>)
      requires Valid()
      modifies this`nodes, this`links, this`indexMap
      ensures Valid()
      ensures id !in old(Markets()) ==>
        res == Err(MarketNotFound(id)) && View() == old(View())
      ensures id in old(Markets()) ==>
        && res.Ok? && Markets() == old(Markets()) - {id}
        && Edges() == set e | e in old(Edges()) && e.fromId != id && e.toId != id
    {
      if id !in indexMap {
        return Err(MarketNotFound(id));
      }
      var slot := indexMap[id];
      ghost var before := View();
      nodes := nodes - {slot};
      links := KeepClear(links, slot);
      indexMap := indexMap - {id};
      RemoveNode(before, id);
      return Ok(());
    }

    // ---------- edges ----------

    /** Position of the edge between two slots. */
    method FindEdge(source: NodeIdx, target: NodeIdx) returns (found: Option<nat>)
      ensures found.Some? ==>
        found.value < |links| && links[found.value].source == source && links[found.value].target == target
      ensures found.None? ==>
        forall k :: 0 <= k < |links| ==> links[k].source != source || links[k].target != target
    {
      for k := 0 to |links|
        invariant forall j :: 0 <= j < k ==> links[j].source != source || links[j].target != target
      {
        if links[k].source == source && links[k].target == target {
          return Some(k);
        }
      }
      return None;
    }

    /** Why `AddDependency` refuses, in the order of its checks. */
    ghost function DependencyError(fromId: string, toId: string, weight: real, confidence: real): Option<GraphError>
      reads this
    {
      if !(-1.0 <= weight <= 1.0) then Some(InvalidWeight(weight))
      else if !(0.0 <= confidence <= 1.0) then Some(InvalidConfidence(confidence))
      else if fromId !in indexMap then Some(MarketNotFound(fromId))
      else if toId !in indexMap then Some(MarketNotFound(toId))
      else None
    }

    /** Add the edge or update the existing one; an update keeps `created_at` and the decay. */
    method AddDependency(fromId: string, toId: string, weight: real, confidence: real, edgeType: EdgeType, now: int)
      returns (res: Result<nat, GraphError>)
      requires Valid()
      modifies this`links
      ensures Valid()
      ensures DependencyError(fromId, toId, weight, confidence).Some? ==>
        && res == Err(DependencyError(fromId, toId, weight, confidence).value) && links == old(links)
      ensures DependencyError(fromId, toId, weight, confidence).None? ==>
        && res.Ok? && res.value < |links|
        && var e := links[res.value].edge;
        && OnPair(e, fromId, toId) && e.weight == weight && e.confidence == confidence && e.edgeType == edgeType
        && (forall o :: o in old(Edges()) && OnPair(o, fromId, toId) ==>
              e.createdAt == o.createdAt && e.decayHalfLifeDays == o.decayHalfLifeDays)
        && ((forall o :: o in old(Edges()) ==> !OnPair(o, fromId, toId)) ==>
              e.createdAt == now && e.decayHalfLifeDays == None)
        && Edges() == (set o | o in old(Edges()) && !OnPair(o, fromId, toId)) + {e}
    {
      if !(-1.0 <= weight <= 1.0) {
        return Err(InvalidWeight(weight));
      }
      if !(0.0 <= confidence <= 1.0) {
        return Err(InvalidConfidence(confidence));
      }
      if fromId !in indexMap {
        return Err(MarketNotFound(fromId));
      }
      if toId !in indexMap {
        return Err(MarketNotFound(toId));
      }
      var source, target := indexMap[fromId], indexMap[toId];
      ghost var before := links;
      var found := FindEdge(source, target);
      var k: nat;
      if found.Some? {
        k := found.value;
        assert LinkOk(nodes, before[k]);
        var e := links[k].edge.(weight := weight, confidence := confidence, edgeType := edgeType);
        links := links[k := Link(source, target, e)];
      } else {
        k := |links|;
        links := links + [Link(source, target, MarketEdge(fromId, toId, weight, confidence, edgeType, now, None))];
      }
      UpsertEdges(before, k, fromId, toId);
      return Ok(k);
    }

    lemma UpsertEdges(before: seq<Link>, k: nat, fromId: string, toId: string)
      requires fromId in indexMap && toId in indexMap && WellFormed(Graph(nodes, before, indexMap))
      requires k < |links| && k <= |before| && |links| == (if k < |before| then |before| else k + 1)
      requires links[k].source == indexMap[fromId] && links[k].target == indexMap[toId]
      requires OnPair(links[k].edge, fromId, toId) && InRange(links[k].edge)
      requires forall j :: 0 <= j < |before| && j != k ==> links[j] == before[j]
      requires k < |before| ==> before[k].source == links[k].source && before[k].target == links[k].target
      requires k == |before| ==> forall j :: 0 <= j < k ==>
        before[j].source != links[k].source || before[j].target != links[k].target
      ensures Valid()
      ensures k < |before| ==> OnPair(before[k].edge, fromId, toId) && before[k].edge in EdgeSet(before)
      ensures forall o :: o in EdgeSet(before) && OnPair(o, fromId, toId) ==> k < |before| && o == before[k].edge
      ensures Edges() == (set o | o in EdgeSet(before) && !OnPair(o, fromId, toId)) + {links[k].edge}
    {
      var g := Graph(nodes, before, indexMap);
      forall j | 0 <= j < |links| ensures LinkOk(nodes, links[j]) {
        if j != k { assert LinkOk(nodes, before[j]); }
      }
      if k < |before| { assert LinkOk(nodes, before[k]); }
      forall j | 0 <= j < |before| && j != k ensures !OnPair(before[j].edge, fromId, toId) {
        assert LinkOk(nodes, before[j]);
        if k < |before| {
          assert !SamePair(before[j], before[k]);
        }
      }
      var rest := set o | o in EdgeSet(before) && !OnPair(o, fromId, toId);
      forall e ensures e in Edges() <==> e in rest + {links[k].edge} {
        if e in Edges() {
          var j :| 0 <= j < |links| && links[j].edge == e;
        }
        if e in rest {
          var j :| 0 <= j < |before| && before[j].edge == e;
          assert j != k && links[j].edge == e;
        }
      }
    }

    /** Remove a directed edge. */
    method RemoveDependency(fromId: string, toId: string) returns (res: Result<(), GraphError>)
      requires Valid()
      modifies this`links
      ensures Valid()
      ensures res == (
        if fromId !in Markets() then Err(MarketNotFound(fromId))
        else if toId !in Markets() then Err(MarketNotFound(toId))
        else if exists e :: e in old(Edges()) && OnPair(e, fromId, toId) then Ok(())
        else Err(EdgeNotFound(fromId, toId)))
      ensures res.Err? ==> links == old(links)
      ensures Edges() == set e | e in old(Edges()) && (res.Ok? ==> !OnPair(e, fromId, toId))
    {
      if fromId !in indexMap {
        return Err(MarketNotFound(fromId));
      }
      if toId !in indexMap {
        return Err(MarketNotFound(toId));
      }
      ghost var before := View();
      var found := FindEdge(indexMap[fromId], indexMap[toId]);
      if found.None? {
        forall e | e in EdgeSet(before.links) ensures !OnPair(e, fromId, toId) {
          var k :| 0 <= k < |before.links| && before.links[k].edge == e;
          assert LinkOk(nodes, before.links[k]);
        }
        return Err(EdgeNotFound(fromId, toId));
      }
      RemoveAt(before, found.value, fromId, toId);
      links := Without(links, found.value);
      return Ok(());
    }

    // ---------- probability updates ----------

    /** Set `current_prob` without propagating; returns the signed change. */
    method UpdateMarketProb(id: string, prob: real, source: UpdateSource, now: int)
      returns (res: Result<real, GraphError>)
      requires Valid()
      modifies this`nodes
      ensures Valid()
      ensures res ==
        if !(0.0 <= prob <= 1.0) then Err(InvalidProbability(prob))
        else if id !in old(Markets()) then Err(MarketNotFound(id))
        else Ok(prob - old(Markets())[id].currentProb)
      ensures Markets() ==
        if res.Err? then old(Markets())
        else old(Markets())[id := old(Markets())[id].(currentProb := prob, lastSource := source, lastUpdate := now)]
      ensures ImpliedOf(nodes) == old(ImpliedOf(nodes))
      ensures res.Err? ==> nodes == old(nodes)
    {
      if !(0.0 <= prob <= 1.0) {
        return Err(InvalidProbability(prob));
      }
      if id !in indexMap {
        return Err(MarketNotFound(id));
      }
      var slot := indexMap[id];
      ghost var before := nodes;
      var delta := prob - nodes[slot].currentProb;
      nodes := nodes[slot := nodes[slot].(currentProb := prob, lastSource := source, lastUpdate := now)];
      forall k | 0 <= k < |links| ensures LinkOk(nodes, links[k]) {
        assert LinkOk(before, links[k]);
      }
      return Ok(delta);
    }

    // ---------- propagation ----------

    /** Every drifted node, in the arbitrary order of the id lookup. */
    method CollectDrifted() returns (dirty: seq<Task>)
      requires Valid()
      ensures IsSeeding(View(), config, None, dirty)
    {
      hide Drifted, IsSeed, Settled;
      dirty := [];
      var rest := indexMap.Keys;
      while rest != {}
        invariant rest <= indexMap.Keys
        invariant forall k :: 0 <= k < |dirty| ==>
          IsSeed(nodes, config, dirty[k]) && dirty[k].node in nodes && nodes[dirty[k].node].marketId !in rest
        invariant forall i, j :: 0 <= i < j < |dirty| ==> dirty[i].node != dirty[j].node
        invariant forall n :: n in nodes && Drifted(nodes[n], config) && nodes[n].marketId !in rest ==> Queued(dirty, n)
        decreases rest
      {
        var id :| id in rest;
        var n := indexMap[id];
        if Drifted(nodes[n], config) {
          QueuedSnoc(dirty, Task(n, nodes[n].currentProb - nodes[n].impliedProb, 0));
          SeedOf(nodes, config, n);
          dirty := dirty + [Task(n, nodes[n].currentProb - nodes[n].impliedProb, 0)];
        }
        rest := rest - {id};
      }
      assert forall n :: n in nodes && Drifted(nodes[n], config) ==> Queued(dirty, n);
    }

    /** Propagate from one market, or from every drifted one. */
    method Propagate(from: Option<string>, now: int, decay: Decay)
      returns (res: Result<PropagationResult, GraphError>, ghost seeds: seq<Task>)
      requires Valid()
      modifies this`nodes
      ensures Valid()
      ensures res.Err? <==> from.Some? && from.value !in indexMap
      ensures res.Err? ==> res == Err(MarketNotFound(from.value))
      ensures from.Some? && from.value in indexMap && Settled(old(Markets())[from.value], config) ==>
        && res == Ok(NO_PROPAGATION) && seeds == []
        && res.value.converged && res.value.iterations == 0 == res.value.nodesUpdated && res.value.nodeChanges == []
      ensures res.Err? || (seeds == [] && from.Some?) ==> View() == old(View())
      ensures res.Ok? && (from.None? || !Settled(old(Markets())[from.value], config)) ==>
        && IsSeeding(old(View()), config, if from.None? then None else Some(indexMap[from.value]), seeds)
        && Pass(old(View()), config, seeds, now, decay, View(), res.value)
    {
      seeds := [];
      var queue: seq<Task>;
      match from {
        case Some(id) =>
          if id !in indexMap {
            return Err(MarketNotFound(id)), [];
          }
          var n := indexMap[id];
          if !Drifted(nodes[n], config) {
            return Ok(NO_PROPAGATION), [];
          }
          queue := [Task(n, nodes[n].currentProb - nodes[n].impliedProb, 0)];
        case None =>
          queue := CollectDrifted();
      }
      seeds := queue;
      var result := RunPass(queue, now, decay);
      return Ok(result), seeds;
    }

    /** Reset the seeds to their market price. */
    method ResetSeeds(seeds: seq<Task>)
      requires forall k :: 0 <= k < |seeds| ==> seeds[k].node in nodes
      modifies this`nodes
      ensures nodes == WithImplied(old(nodes), AfterSeeding(old(nodes), seeds))
    {
      for k := 0 to |seeds|
        invariant nodes.Keys == old(nodes).Keys
        invariant forall n :: n in nodes ==>
          nodes[n] == if n in SeedNodes(seeds[..k]) then old(nodes)[n].(impliedProb := old(nodes)[n].currentProb)
                      else old(nodes)[n]
      {
        var n := seeds[k].node;
        nodes := nodes[n := nodes[n].(impliedProb := nodes[n].currentProb)];
        SeedNodesSnoc(seeds, k);
      }
      assert seeds[..|seeds|] == seeds;
    }

    /** Run a pass from the given seeds and report it. */
    method RunPass(seeds: seq<Task>, now: int, decay: Decay) returns (result: PropagationResult)
      requires Valid() && forall k :: 0 <= k < |seeds| ==> seeds[k].node in nodes
      modifies this`nodes
      ensures Valid() && Pass(old(View()), config, seeds, now, decay, View(), result)
    {
      ghost var entry := View();
      var nodeProbs, iterations, depthLimited := ResetAndDrain(seeds, now, decay);
      var ids, changes := ReportChanges(nodeProbs);
      result := PropagationResult(|changes|, iterations, !depthLimited, ids, changes);
      MakePass(entry, config, seeds, now, decay, nodes, nodeProbs, iterations, depthLimited, ids, changes);
      assert links == entry.links && indexMap == entry.indexMap;
    }

    method ResetAndDrain(seeds: seq<Task>, now: int, decay: Decay)
      returns (nodeProbs: map<NodeIdx, (real, real)>, iterations: nat, depthLimited: bool)
      requires Valid() && forall k :: 0 <= k < |seeds| ==> seeds[k].node in nodes
      modifies this`nodes
      ensures Valid() && nodeProbs.Keys <= nodes.Keys
      ensures Drained(old(View()), config, seeds, now, decay, nodes, nodeProbs, iterations, depthLimited)
    {
      hide Drain;
      ghost var entry := View();
      ghost var p := ParamsOf(entry, config, now, decay);
      NetClosed(entry, now, decay);
      ghost var start := Start(AfterSeeding(nodes, seeds), seeds);
      ResetSeeds(seeds);
      assert ImpliedOf(nodes) == start.implied;
      nodeProbs, iterations, depthLimited := DrainQueue(p, seeds, now, decay);
      FinishPass(entry, config, seeds, now, decay, nodes, nodeProbs, iterations, depthLimited);
      assert links == entry.links && indexMap == entry.indexMap;
    }

    /** The queue loop: pop a task, drop it at the depth limit, otherwise send a message along each edge. */
    method DrainQueue(ghost p: Params, seeds: seq<Task>, now: int, decay: Decay)
      returns (nodeProbs: map<NodeIdx, (real, real)>, iterations: nat, depthLimited: bool)
      requires p.damping == config.dampingFactor && p.threshold == config.convergenceThreshold
      requires p.maxDepth == config.maxDepth && p.net.Keys == nodes.Keys
      requires forall n :: n in p.net ==> p.net[n] == OutArcs(links, n, now, decay)
      requires Ready(p, Start(ImpliedOf(nodes), seeds))
      modifies this`nodes
      ensures SameButImplied(old(nodes), nodes)
      ensures Bfs(ImpliedOf(nodes), [], nodeProbs, iterations, depthLimited)
           == Drain(p, Start(old(ImpliedOf(nodes)), seeds))
    {
      hide Step;
      var queue := seeds;
      nodeProbs, iterations, depthLimited := map[], 0, false;
      ghost var s := Start(ImpliedOf(nodes), seeds);
      while queue != []
        invariant SameButImplied(old(nodes), nodes)
        invariant s == Bfs(ImpliedOf(nodes), queue, nodeProbs, iterations, depthLimited) && Ready(p, s)
        invariant Drain(p, s) == Drain(p, Start(old(ImpliedOf(nodes)), seeds))
        decreases Load(p, queue, 1)
      {
        StepLoad(p, s, 1);
        queue, nodeProbs, iterations, depthLimited :=
          ServeTask(p, queue, nodeProbs, iterations, depthLimited, now, decay);
        s := Step(p, s);
      }
    }

    /** Pop one task; at the depth limit drop it, otherwise send a message along each edge. */
    method ServeTask(ghost p: Params, queue0: seq<Task>, nodeProbs0: map<NodeIdx, (real, real)>,
                     iterations0: nat, depthLimited0: bool, now: int, decay: Decay)
      returns (queue: seq<Task>, nodeProbs: map<NodeIdx, (real, real)>, iterations: nat, depthLimited: bool)
      requires p.damping == config.dampingFactor && p.threshold == config.convergenceThreshold
      requires p.maxDepth == config.maxDepth && queue0 != []
      requires queue0[0].node in p.net ==> p.net[queue0[0].node] == OutArcs(links, queue0[0].node, now, decay)
      requires Ready(p, Bfs(ImpliedOf(nodes), queue0, nodeProbs0, iterations0, depthLimited0))
      modifies this`nodes
      ensures SameButImplied(old(nodes), nodes)
      ensures Bfs(ImpliedOf(nodes), queue, nodeProbs, iterations, depthLimited)
           == Step(p, Bfs(old(ImpliedOf(nodes)), queue0, nodeProbs0, iterations0, depthLimited0))
    {
      var task := queue0[0];
      queue, nodeProbs, iterations, depthLimited := queue0[1..], nodeProbs0, iterations0, depthLimited0;
      if task.depth >= config.maxDepth {
        depthLimited := true;
      } else {
        iterations := iterations + 1;
        var outgoing := OutArcs(links, task.node, now, decay);
        queue, nodeProbs := SendAll(p, outgoing, task, queue, nodeProbs, iterations, depthLimited);
      }
    }

    /** Send one message along each outgoing edge of a task. */
    method SendAll(ghost p: Params, outgoing: seq<Arc>, task: Task, queue0: seq<Task>,
                   nodeProbs0: map<NodeIdx, (real, real)>, ghost iterations: nat, ghost depthLimited: bool)
      returns (queue: seq<Task>, nodeProbs: map<NodeIdx, (real, real)>)
      requires p.damping == config.dampingFactor && p.threshold == config.convergenceThreshold
      requires Ready(p, Bfs(ImpliedOf(nodes), queue0, nodeProbs0, iterations, depthLimited))
      requires ArcsWithin(p.net, outgoing)
      modifies this`nodes
      ensures SameButImplied(old(nodes), nodes)
      ensures Bfs(ImpliedOf(nodes), queue, nodeProbs, iterations, depthLimited)
           == Deliver(p, Bfs(old(ImpliedOf(nodes)), queue0, nodeProbs0, iterations, depthLimited),
                      outgoing, task.delta, task.depth)
    {
      hide DeliverArc, SameButImplied;
      SameSelf(nodes);
      queue, nodeProbs := queue0, nodeProbs0;
      ghost var s0 := Bfs(ImpliedOf(nodes), queue0, nodeProbs0, iterations, depthLimited);
      ghost var s := s0;
      assert outgoing[0..] == outgoing;
      for k := 0 to |outgoing|
        invariant SameButImplied(old(nodes), nodes)
        invariant s == Bfs(ImpliedOf(nodes), queue, nodeProbs, iterations, depthLimited) && Ready(p, s)
        invariant Deliver(p, s, outgoing[k..], task.delta, task.depth)
               == Deliver(p, s0, outgoing, task.delta, task.depth)
      {
        assert outgoing[k..][0] == outgoing[k] && outgoing[k..][1..] == outgoing[k + 1..];
        ghost var before := nodes;
        queue, nodeProbs := SendMessage(p, outgoing[k], task, queue, nodeProbs, iterations, depthLimited);
        SameThrough(old(nodes), before, nodes);
        s := DeliverArc(p, s, outgoing[k], task.delta, task.depth);
      }
      assert outgoing[|outgoing|..] == [];
    }

    /** Send one message: skip it below the threshold, clamp the new value, queue the actual change. */
    method SendMessage(ghost p: Params, arc: Arc, task: Task, queue0: seq<Task>,
                       nodeProbs0: map<NodeIdx, (real, real)>, ghost iterations: nat, ghost depthLimited: bool)
      returns (queue: seq<Task>, nodeProbs: map<NodeIdx, (real, real)>)
      requires p.damping == config.dampingFactor && p.threshold == config.convergenceThreshold
      requires arc.target in nodes
      modifies this`nodes
      ensures SameButImplied(old(nodes), nodes)
      ensures Bfs(ImpliedOf(nodes), queue, nodeProbs, iterations, depthLimited)
           == DeliverArc(p, Bfs(old(ImpliedOf(nodes)), queue0, nodeProbs0, iterations, depthLimited),
                         arc, task.delta, task.depth)
    {
      queue, nodeProbs := queue0, nodeProbs0;
      var target := arc.target;
      var impliedChange := Damped(arc.weight, task.delta, config.dampingFactor);
      if Abs(impliedChange) < config.convergenceThreshold {
        return;
      }
      var oldImplied := nodes[target].impliedProb;
      var newImplied := Clamp(oldImplied + impliedChange, 0.0, 1.0);
      var actualChange := newImplied - oldImplied;
      if Abs(actualChange) < config.convergenceThreshold {
        return;
      }
      nodeProbs := nodeProbs[target := (if target in nodeProbs then nodeProbs[target].0 else oldImplied, newImplied)];
      nodes := nodes[target := nodes[target].(impliedProb := newImplied)];
      queue := queue + [Task(target, actualChange, task.depth + 1)];
      assert ImpliedOf(nodes) == old(ImpliedOf(nodes))[target := newImplied];
    }

    /** One record per entry of the map, in arbitrary order. */
    method ReportChanges(nodeProbs: map<NodeIdx, (real, real)>) returns (ids: seq<string>, changes: seq<NodeChange>)
      requires nodeProbs.Keys <= nodes.Keys
      ensures |ids| == |changes| && forall k :: 0 <= k < |ids| ==> ids[k] == changes[k].marketId
      ensures exists slots :: ReportsTouched(nodes, nodeProbs, slots, changes)
    {
      ids, changes := [], [];
      ghost var slots: seq<NodeIdx> := [];
      var rest := nodeProbs.Keys;
      while rest != {}
        invariant rest <= nodeProbs.Keys
        invariant |ids| == |changes| == |slots| && forall k :: 0 <= k < |ids| ==> ids[k] == changes[k].marketId
        invariant Distinct(slots) && forall n :: n in slots <==> n in nodeProbs && n !in rest
        invariant forall k :: 0 <= k < |slots| ==>
          && slots[k] in nodeProbs
          && changes[k] == NodeChange(nodes[slots[k]].marketId, nodeProbs[slots[k]].0, nodeProbs[slots[k]].1)
        decreases rest
      {
        var n :| n in rest;
        changes := changes + [NodeChange(nodes[n].marketId, nodeProbs[n].0, nodeProbs[n].1)];
        ids := ids + [nodes[n].marketId];
        slots := slots + [n];
        rest := rest - {n};
      }
      assert ReportsTouched(nodes, nodeProbs, slots, changes);
    }

    /** Set a price and propagate it, unless the price moved by less than `change_threshold`. */
    method UpdateAndPropagate(id: string, prob: real, source: UpdateSource, now: int, decay: Decay)
      returns (res: Result<PropagationResult, GraphError>, ghost mid: Graph, ghost seeds: seq<Task>)
      requires Valid()
      modifies this`nodes
      ensures Valid()
      ensures !(0.0 <= prob <= 1.0) ==> res == Err(InvalidProbability(prob)) && View() == old(View())
      ensures 0.0 <= prob <= 1.0 && id !in indexMap ==> res == Err(MarketNotFound(id)) && View() == old(View())
      ensures 0.0 <= prob <= 1.0 && id in indexMap ==>
        && res.Ok? && WellFormed(mid) && mid.links == links && mid.indexMap == indexMap
        && NodesById(mid) == old(Markets())[id :=
             old(Markets())[id].(currentProb := prob, lastSource := source, lastUpdate := now)]
        && (if -config.changeThreshold < prob - old(Markets())[id].currentProb < config.changeThreshold
               || Settled(NodesById(mid)[id], config)
            then res == Ok(NO_PROPAGATION) && View() == mid
            else IsSeeding(mid, config, Some(indexMap[id]), seeds)
                 && Pass(mid, config, seeds, now, decay, View(), res.value))
    {
      hide Pass, IsSeeding, WellFormed, Abs;
      seeds := [];
      var update := UpdateMarketProb(id, prob, source, now);
      mid := View();
      if update.Err? {
        return Err(update.error), mid, seeds;
      }
      if Abs(update.value) < config.changeThreshold {
        return Ok(NO_PROPAGATION), mid, seeds;
      }
      res, seeds := Propagate(Some(id), now, decay);
    }

    /** Apply price updates in order, stopping at the first refused one. */
    method ApplyBatch(updates: seq<(string, real, UpdateSource)>, now: int)
      returns (error: Option<GraphError>, done: nat)
      requires Valid()
      modifies this`nodes
      ensures Valid() && done <= |updates| && (error.None? <==> done == |updates|)
      ensures AllAccepted(old(Markets()), updates[..done])
      ensures Markets() == ApplyUpdates(old(Markets()), updates[..done], now)
      ensures error.Some? ==>
        !Accepted(old(Markets()), updates[done]) && error.value == RefusalOf(old(Markets()), updates[done])
    {
      hide ApplyUpdates;
      done := 0;
      ApplyNone(Markets(), now);
      while done < |updates|
        invariant Valid() && done <= |updates|
        invariant AllAccepted(old(Markets()), updates[..done])
        invariant Markets() == ApplyUpdates(old(Markets()), updates[..done], now)
      {
        var u := updates[done];
        var update := UpdateMarketProb(u.0, u.1, u.2, now);
        if update.Err? {
          return Some(update.error), done;
        }
        ApplySnoc(old(Markets()), updates, done, now);
        done := done + 1;
      }
      return None, done;
    }

    /** Apply price updates in order, stopping at the first refused one, then run one full pass. */
    method BatchUpdateAndPropagate(updates: seq<(string, real, UpdateSource)>, now: int, decay: Decay)
      returns (res: Result<PropagationResult, GraphError>, done: nat, ghost mid: Graph, ghost seeds: seq<Task>)
      requires Valid()
      modifies this`nodes
      ensures Valid() && done <= |updates| && WellFormed(mid)
      ensures AllAccepted(old(Markets()), updates[..done])
      ensures NodesById(mid) == ApplyUpdates(old(Markets()), updates[..done], now)
      ensures res.Ok? <==> done == |updates|
      ensures res.Ok? ==>
        IsSeeding(mid, config, None, seeds) && Pass(mid, config, seeds, now, decay, View(), res.value)
      ensures res.Err? ==>
        && View() == mid && !Accepted(old(Markets()), updates[done])
        && res.error == RefusalOf(old(Markets()), updates[done])
    {
      var error;
      error, done := ApplyBatch(updates, now);
      mid, seeds := View(), [];
      if error.Some? {
        return Err(error.value), done, mid, seeds;
      }
      res, seeds := Propagate(None, now, decay);
    }

    // ---------- snapshots ----------

    /** Export nodes (in the arbitrary order of the id lookup), edges and configuration. */
    method ToSnapshot() returns (snapshot: GraphSnapshot)
      requires Valid()
      ensures IsSnapshotOf(snapshot, View(), config)
    {
      var ids := indexMap.Keys;
      var list: seq<MarketNode> := [];
      while ids != {}
        invariant ids <= indexMap.Keys
        invariant forall k :: 0 <= k < |list| ==>
          list[k].marketId in indexMap && list[k].marketId !in ids && list[k] == nodes[indexMap[list[k].marketId]]
        invariant forall id :: id in indexMap && id !in ids ==> nodes[indexMap[id]] in list
        invariant forall i, j :: 0 <= i < j < |list| ==> list[i].marketId != list[j].marketId
        decreases ids
      {
        var id :| id in ids;
        list := list + [nodes[indexMap[id]]];
        ids := ids - {id};
      }
      snapshot := GraphSnapshot(list, EdgesOf(links), config);
      SnapshotFaithful(View(), snapshot);
    }
  }

  // ---------- rebuilding from a snapshot ----------

  ghost function MarketsOf(nodes: seq<MarketNode>): map<string, MarketNode> {
    if nodes == [] then map[] else Upsert(MarketsOf(nodes[..|nodes| - 1]), nodes[|nodes| - 1])
  }

  /** The last edge given for a pair wins. */
  ghost function LastEdges(edges: seq<MarketEdge>): set<MarketEdge> {
    if edges == [] then {} else Replacing(LastEdges(edges[..|edges| - 1]), edges[|edges| - 1])
  }

  ghost function Replacing(edges: set<MarketEdge>, e: MarketEdge): set<MarketEdge> {
    (set o | o in edges && !OnPair(o, e.fromId, e.toId)) + {e}
  }

  predicate Loadable(markets: map<string, MarketNode>, e: MarketEdge) {
    InRange(e) && e.fromId in markets && e.toId in markets
  }

  /** Why an edge is refused. */
  function LoadError(markets: map<string, MarketNode>, e: MarketEdge): GraphError
    requires !Loadable(markets, e)
  {
    if !(-1.0 <= e.weight <= 1.0) then InvalidWeight(e.weight)
    else if !(0.0 <= e.confidence <= 1.0) then InvalidConfidence(e.confidence)
    else if e.fromId !in markets then MarketNotFound(e.fromId)
    else MarketNotFound(e.toId)
  }

  /** The error of the first edge that cannot be loaded. */
  ghost predicate FirstRefusal(markets: map<string, MarketNode>, edges: seq<MarketEdge>, error: GraphError) {
    exists k: nat :: k < |edges| && RefusedAt(markets, edges, k, error)
  }

  ghost predicate RefusedAt(markets: map<string, MarketNode>, edges: seq<MarketEdge>, k: nat, error: GraphError)
    requires k < |edges|
  {
    && (forall j :: 0 <= j < k ==> Loadable(markets, edges[j]))
    && !Loadable(markets, edges[k]) && error == LoadError(markets, edges[k])
  }

  /** Load one edge with its stored metadata. */
  method LoadEdge(engine: MarketGraphEngine, e: MarketEdge, now: int) returns (res: Result<(), GraphError>)
    requires engine.Valid()
    modifies engine`links
    ensures engine.Valid()
    ensures res.Ok? <==> Loadable(engine.Markets(), e)
    ensures res.Err? ==> res.error == LoadError(engine.Markets(), e)
    ensures res.Ok? ==> engine.Edges() == Replacing(old(engine.Edges()), e)
  {
    var added := engine.AddDependency(e.fromId, e.toId, e.weight, e.confidence, e.edgeType, now);
    if added.Err? {
      return Err(added.error);
    }
    ghost var before := engine.links;
    var k := added.value;
    engine.links := engine.links[k :=
      engine.links[k].(edge := engine.links[k].edge.(createdAt := e.createdAt,
                                                     decayHalfLifeDays := e.decayHalfLifeDays))];
    RestoredMetadata(Graph(engine.nodes, before, engine.indexMap), k, e);
    return Ok(());
  }

  lemma RestoredMetadata(g: Graph, k: nat, e: MarketEdge)
    requires WellFormed(g) && k < |g.links|
    requires g.links[k].edge == e.(createdAt := g.links[k].edge.createdAt,
                                   decayHalfLifeDays := g.links[k].edge.decayHalfLifeDays)
    ensures var links := g.links[k := g.links[k].(edge := e)];
      && WellFormed(g.(links := links))
      && EdgeSet(links) == Replacing(EdgeSet(g.links), e)
  {
    var links := g.links[k := g.links[k].(edge := e)];
    forall j | 0 <= j < |links| ensures LinkOk(g.nodes, links[j]) {
      assert LinkOk(g.nodes, g.links[j]);
    }
    forall o ensures o in EdgeSet(links) <==> o in Replacing(EdgeSet(g.links), e) {
      if o in EdgeSet(links) {
        var j :| 0 <= j < |links| && links[j].edge == o;
        if j != k && OnPair(o, e.fromId, e.toId) { PairById(g, j, k); }
        if j != k { assert g.links[j].edge == o; }
      }
      if o in Replacing(EdgeSet(g.links), e) {
        if o == e {
          assert links[k].edge == e;
        } else {
          var j :| 0 <= j < |g.links| && g.links[j].edge == o;
          assert links[j].edge == o;
        }
      }
    }
  }

  method LoadNodes(engine: MarketGraphEngine, nodes: seq<MarketNode>)
    requires engine.Valid() && engine.Markets() == map[]
    modifies engine`nodes, engine`indexMap
    ensures engine.Valid() && engine.Markets() == MarketsOf(nodes)
  {
    for k := 0 to |nodes|
      invariant engine.Valid() && engine.Markets() == MarketsOf(nodes[..k])
    {
      var slot := engine.AddMarket(nodes[k]);
      assert nodes[..k + 1][..k] == nodes[..k];
    }
    assert nodes[..|nodes|] == nodes;
  }

  method LoadEdges(engine: MarketGraphEngine, edges: seq<MarketEdge>, now: int) returns (error: Option<GraphError>)
    requires engine.Valid() && engine.Edges() == {}
    modifies engine`links
    ensures engine.Valid()
    ensures error.None? <==> forall k :: 0 <= k < |edges| ==> Loadable(engine.Markets(), edges[k])
    ensures error.None? ==> engine.Edges() == LastEdges(edges)
    ensures error.Some? ==> FirstRefusal(engine.Markets(), edges, error.value)
  {
    hide WellFormed;
    for k := 0 to |edges|
      invariant engine.Valid() && engine.Markets() == old(engine.Markets())
      invariant forall j :: 0 <= j < k ==> Loadable(engine.Markets(), edges[j])
      invariant engine.Edges() == LastEdges(edges[..k])
    {
      var loaded := LoadEdge(engine, edges[k], now);
      if loaded.Err? {
        assert RefusedAt(engine.Markets(), edges, k, loaded.error);
        return Some(loaded.error);
      }
      assert edges[..k + 1][..k] == edges[..k];
    }
    assert edges[..|edges|] == edges;
    return None;
  }

  /** Rebuild an engine: all nodes by upsert, then all edges, refusing the first bad edge. */
  method FromSnapshot(s: GraphSnapshot, now: int) returns (res: Result<MarketGraphEngine, GraphError>)
    ensures res.Ok? <==> forall k :: 0 <= k < |s.edges| ==> Loadable(MarketsOf(s.nodes), s.edges[k])
    ensures res.Ok? ==>
      && fresh(res.value) && res.value.Valid() && res.value.config == s.config
      && res.value.Markets() == MarketsOf(s.nodes)
      && res.value.Edges() == LastEdges(s.edges)
    ensures res.Err? ==> FirstRefusal(MarketsOf(s.nodes), s.edges, res.error)
  {
    var engine := new MarketGraphEngine(s.config);
    LoadNodes(engine, s.nodes);
    var error := LoadEdges(engine, s.edges, now);
    if error.Some? {
      return Err(error.value);
    }
    return Ok(engine);
  }

  lemma {:induction false} MarketsOfDistinct(nodes: seq<MarketNode>)
    requires forall i, j :: 0 <= i < j < |nodes| ==> nodes[i].marketId != nodes[j].marketId
    ensures forall n :: n in nodes <==> n.marketId in MarketsOf(nodes) && MarketsOf(nodes)[n.marketId] == n
    ensures forall id :: id in MarketsOf(nodes) ==> MarketsOf(nodes)[id].marketId == id
  {
    if nodes != [] {
      var front, last := nodes[..|nodes| - 1], nodes[|nodes| - 1];
      MarketsOfDistinct(front);
      assert nodes == front + [last];
      assert forall id :: id in MarketsOf(front) ==> MarketsOf(front)[id] in front;
    }
  }

  lemma {:induction false} LastEdgesDistinct(edges: seq<MarketEdge>)
    requires forall i, j :: 0 <= i < j < |edges| ==> !OnPair(edges[i], edges[j].fromId, edges[j].toId)
    ensures forall e :: e in LastEdges(edges) <==> e in edges
  {
    if edges != [] {
      var front, last := edges[..|edges| - 1], edges[|edges| - 1];
      LastEdgesDistinct(front);
      assert edges == front + [last];
    }
  }

  /** A snapshot of a well-formed graph is loadable and holds the same markets, edges and configuration. */
  lemma SnapshotRebuilds(s: GraphSnapshot, g: Graph, config: PropagationConfig)
    requires WellFormed(g) && IsSnapshotOf(s, g, config)
    ensures forall k :: 0 <= k < |s.edges| ==> Loadable(MarketsOf(s.nodes), s.edges[k])
    ensures MarketsOf(s.nodes) == NodesById(g)
    ensures LastEdges(s.edges) == EdgeSet(g.links)
    ensures s.config == config
  {
    MarketsOfDistinct(s.nodes);
    LastEdgesDistinct(s.edges);
    var m := MarketsOf(s.nodes);
    forall id ensures id in m <==> id in NodesById(g)
      ensures id in m && id in NodesById(g) ==> m[id] == NodesById(g)[id]
    {
      if id in m { assert m[id] in s.nodes; }
      if id in NodesById(g) { assert NodesById(g)[id] in s.nodes; }
    }
    forall k | 0 <= k < |s.edges| ensures Loadable(m, s.edges[k]) {
      assert s.edges[k] in EdgeSet(g.links);
      var j :| 0 <= j < |g.links| && g.links[j].edge == s.edges[k];
      assert LinkOk(g.nodes, g.links[j]);
    }
  }

  /** Exporting and re-importing gives an engine with the same markets, edges and configuration. */
  method RoundTrip(engine: MarketGraphEngine, now: int) returns (copy: MarketGraphEngine)
    requires engine.Valid()
    ensures fresh(copy) && copy.Valid()
    ensures copy.Markets() == engine.Markets() && copy.Edges() == engine.Edges() && copy.config == engine.config
    ensures |copy.links| == |engine.links|
  {
    var s := engine.ToSnapshot();
    SnapshotRebuilds(s, engine.View(), engine.config);
    var res := FromSnapshot(s, now);
    copy := res.value;
    EdgeCount(copy.View());
    EdgeCount(engine.View());
  }

  lemma EdgeSetGrows(links: seq<Link>, n: nat)
    requires n < |links|
    ensures EdgeSet(links[..n + 1]) == EdgeSet(links[..n]) + {links[n].edge}
  {
    var longer, shorter := links[..n + 1], links[..n];
    assert longer == shorter + [links[n]];
    forall o ensures o in EdgeSet(longer) <==> o in EdgeSet(shorter) || o == links[n].edge {
      if o in EdgeSet(shorter) {
        var j :| 0 <= j < n && shorter[j].edge == o;
        assert longer[j].edge == o;
      }
      assert longer[n].edge == links[n].edge;
    }
  }

  lemma NewEdge(g: Graph, n: nat)
    requires WellFormed(g) && n < |g.links|
    ensures g.links[n].edge !in EdgeSet(g.links[..n])
  {
    forall j: nat | j < n ensures g.links[..n][j].edge != g.links[n].edge {
      if g.links[j].edge == g.links[n].edge {
        PairById(g, j, n);
      }
    }
  }

  lemma {:induction false} EdgeCountUpTo(g: Graph, n: nat)
    requires WellFormed(g) && n <= |g.links|
    ensures |EdgeSet(g.links[..n])| == n
  {
    hide WellFormed, EdgeSet;
    if n > 0 {
      EdgeCountUpTo(g, n - 1);
      EdgeSetGrows(g.links, n - 1);
      NewEdge(g, n - 1);
    } else {
      assert EdgeSet(g.links[..0]) == {} by {
        NoEdges();
        assert g.links[..0] == [];
      }
    }
  }

  lemma NoEdges()
    ensures EdgeSet([]) == {}
  {
  }

  /** There are as many edges as edge values. */
  lemma EdgeCount(g: Graph)
    requires WellFormed(g)
    ensures |EdgeSet(g.links)| == |g.links|
  {
    EdgeCountUpTo(g, |g.links|);
    assert g.links[..|g.links|] == g.links;
  }

  lemma SnapshotFaithful(g: Graph, s: GraphSnapshot)
    requires WellFormed(g) && s.edges == EdgesOf(g.links)
    requires forall i, j :: 0 <= i < j < |s.nodes| ==> s.nodes[i].marketId != s.nodes[j].marketId
    requires forall k :: 0 <= k < |s.nodes| ==>
      s.nodes[k].marketId in g.indexMap && s.nodes[k] == g.nodes[g.indexMap[s.nodes[k].marketId]]
    requires forall id :: id in g.indexMap ==> g.nodes[g.indexMap[id]] in s.nodes
    ensures IsSnapshotOf(s, g, s.config)
  {
    forall e ensures e in s.edges <==> e in EdgeSet(g.links) {
      if e in EdgeSet(g.links) {
        var k :| 0 <= k < |g.links| && g.links[k].edge == e;
        assert s.edges[k] == e;
      }
    }
    forall i, j | 0 <= i < j < |s.edges| ensures !OnPair(s.edges[i], s.edges[j].fromId, s.edges[j].toId) {
      assert LinkOk(g.nodes, g.links[i]) && LinkOk(g.nodes, g.links[j]);
      assert !SamePair(g.links[i], g.links[j]);
    }
  }

  function EdgesOf(links: seq<Link>): (edges: seq<MarketEdge>)
    ensures |edges| == |links| && forall k :: 0 <= k < |links| ==> edges[k] == links[k].edge
  {
    if links == [] then [] else [links[0].edge] + EdgesOf(links[1..])
  }

  /** A price update is accepted when the price is a probability and the market is known. */
  predicate Accepted(markets: map<string, MarketNode>, u: (string, real, UpdateSource)) {
    0.0 <= u.1 <= 1.0 && u.0 in markets
  }

  /** Why an update is refused. */
  function RefusalOf(markets: map<string, MarketNode>, u: (string, real, UpdateSource)): GraphError
    requires !Accepted(markets, u)
  {
    if 0.0 <= u.1 <= 1.0 then MarketNotFound(u.0) else InvalidProbability(u.1)
  }

  ghost predicate AllAccepted(markets: map<string, MarketNode>, updates: seq<(string, real, UpdateSource)>) {
    forall k :: 0 <= k < |updates| ==> Accepted(markets, updates[k])
  }

  ghost function ApplyUpdates(markets: map<string, MarketNode>, updates: seq<(string, real, UpdateSource)>, now: int):
    (r: map<string, MarketNode>)
    requires AllAccepted(markets, updates)
    ensures r.Keys == markets.Keys
  {
    if updates == [] then markets else
      var before := ApplyUpdates(markets, updates[..|updates| - 1], now);
      var u := updates[|updates| - 1];
      before[u.0 := before[u.0].(currentProb := u.1, lastSource := u.2, lastUpdate := now)]
  }

  lemma ApplyNone(markets: map<string, MarketNode>, now: int)
    ensures ApplyUpdates(markets, [], now) == markets
  {
  }

  lemma ApplySnoc(markets: map<string, MarketNode>, updates: seq<(string, real, UpdateSource)>, k: nat, now: int)
    requires k < |updates| && AllAccepted(markets, updates[..k]) && Accepted(markets, updates[k])
    ensures AllAccepted(markets, updates[..k + 1])
    ensures var before := ApplyUpdates(markets, updates[..k], now);
      var u := updates[k];
      ApplyUpdates(markets, updates[..k + 1], now)
      == before[u.0 := before[u.0].(currentProb := u.1, lastSource := u.2, lastUpdate := now)]
  {
    assert updates[..k + 1][..k] == updates[..k];
  }

  /** Every market once, in some order, and every edge once, in some order. */
  ghost predicate IsSnapshotOf(s: GraphSnapshot, g: Graph, config: PropagationConfig)
    requires WellFormed(g)
  {
    && s.config == config
    && (forall i, j :: 0 <= i < j < |s.nodes| ==> s.nodes[i].marketId != s.nodes[j].marketId)
    && (forall n :: n in s.nodes <==> n.marketId in NodesById(g) && NodesById(g)[n.marketId] == n)
    && (forall e :: e in s.edges <==> e in EdgeSet(g.links))
    && (forall i, j :: 0 <= i < j < |s.edges| ==> !OnPair(s.edges[i], s.edges[j].fromId, s.edges[j].toId))
  }

  /** `nodes` and the loop's counters are what the queue loop leaves behind. */
  ghost predicate Drained(g: Graph, config: PropagationConfig, seeds: seq<Task>, now: int, decay: Decay,
                          nodes: map<NodeIdx, MarketNode>, touched: map<NodeIdx, (real, real)>,
                          iterations: nat, depthLimited: bool)
    requires WellFormed(g) && forall k :: 0 <= k < |seeds| ==> seeds[k].node in g.nodes
  {
    NetClosed(g, now, decay);
    var d := Drain(ParamsOf(g, config, now, decay), Start(AfterSeeding(g.nodes, seeds), seeds));
    && nodes == WithImplied(g.nodes, d.implied)
    && touched == d.touched && iterations == d.iterations && depthLimited == d.depthLimited
  }

  lemma SameSelf(nodes: map<NodeIdx, MarketNode>)
    ensures SameButImplied(nodes, nodes)
  {
  }

  lemma SameThrough(a: map<NodeIdx, MarketNode>, b: map<NodeIdx, MarketNode>, c: map<NodeIdx, MarketNode>)
    requires SameButImplied(a, b) && SameButImplied(b, c)
    ensures SameButImplied(a, c)
  {
  }

  lemma OnlyImplied(before: map<NodeIdx, MarketNode>, start: map<NodeIdx, real>, nodes: map<NodeIdx, MarketNode>)
    requires start.Keys == before.Keys && SameButImplied(WithImplied(before, start), nodes)
    ensures ImpliedOf(nodes).Keys == before.Keys == nodes.Keys
    ensures nodes == WithImplied(before, ImpliedOf(nodes))
  {
  }

  lemma FinishPass(g: Graph, config: PropagationConfig, seeds: seq<Task>, now: int, decay: Decay,
                   nodes: map<NodeIdx, MarketNode>, touched: map<NodeIdx, (real, real)>,
                   iterations: nat, depthLimited: bool)
    requires WellFormed(g) && forall k :: 0 <= k < |seeds| ==> seeds[k].node in g.nodes
    requires Closed(NetOf(g, now, decay))
    requires var start := AfterSeeding(g.nodes, seeds);
      && Bfs(ImpliedOf(nodes), [], touched, iterations, depthLimited)
         == Drain(ParamsOf(g, config, now, decay), Start(start, seeds))
      && SameButImplied(WithImplied(g.nodes, start), nodes)
    ensures Drained(g, config, seeds, now, decay, nodes, touched, iterations, depthLimited)
    ensures touched.Keys <= nodes.Keys && WellFormed(g.(nodes := nodes))
  {
    hide WithImplied, SameButImplied, ImpliedOf, WellFormed, Drain;
    var start := AfterSeeding(g.nodes, seeds);
    OnlyImplied(g.nodes, start, nodes);
    WithImpliedWellFormed(g, ImpliedOf(nodes));
    DrainRecords(ParamsOf(g, config, now, decay), Start(start, seeds), start);
  }

  lemma MakePass(g: Graph, config: PropagationConfig, seeds: seq<Task>, now: int, decay: Decay,
                 nodes: map<NodeIdx, MarketNode>, touched: map<NodeIdx, (real, real)>,
                 iterations: nat, depthLimited: bool, ids: seq<string>, changes: seq<NodeChange>)
    requires WellFormed(g) && forall k :: 0 <= k < |seeds| ==> seeds[k].node in g.nodes
    requires Drained(g, config, seeds, now, decay, nodes, touched, iterations, depthLimited)
    requires |ids| == |changes| && forall k :: 0 <= k < |ids| ==> ids[k] == changes[k].marketId
    requires exists slots :: ReportsTouched(nodes, touched, slots, changes)
    ensures Pass(g, config, seeds, now, decay, g.(nodes := nodes),
                 PropagationResult(|changes|, iterations, !depthLimited, ids, changes))
  {
    var slots :| ReportsTouched(nodes, touched, slots, changes);
    assert ReportsTouched(g.nodes, touched, slots, changes);
  }

  lemma SeedNodesSnoc(seeds: seq<Task>, k: nat)
    requires k < |seeds|
    ensures SeedNodes(seeds[..k + 1]) == SeedNodes(seeds[..k]) + {seeds[k].node}
  {
    forall n ensures n in SeedNodes(seeds[..k + 1]) <==> n in SeedNodes(seeds[..k]) || n == seeds[k].node {
      if n in SeedNodes(seeds[..k]) {
        var i :| 0 <= i < k && seeds[..k][i].node == n;
        assert seeds[..k + 1][i].node == n;
      }
      if n in SeedNodes(seeds[..k + 1]) {
        var i :| 0 <= i < k + 1 && seeds[..k + 1][i].node == n;
        assert i < k ==> seeds[..k][i].node == n;
      }
      assert seeds[..k + 1][k] == seeds[k];
    }
  }
}
