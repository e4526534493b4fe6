/** How much work a pass does: one task per walk whose every message passes, and how large that gets. */
module PathCounts {
  import opened Sums
  import opened Propagation
  import opened PathSums

  // ---------- the tasks below a task ----------

  /** Tasks processed in the message tree of a task at `n`, itself included (clamps ignored). */
  ghost function Visits(p: Params, n: NodeIdx, delta: real, depth: nat): nat
    requires Closed(p.net) && n in p.net
    decreases Left(p, depth), 1, 0
  {
    if depth >= p.maxDepth then 0 else 1 + VisitsVia(p, p.net[n], delta, depth)
  }

  ghost function VisitsVia(p: Params, arcs: seq<Arc>, delta: real, depth: nat): nat
    requires Closed(p.net) && ArcsWithin(p.net, arcs) && depth < p.maxDepth
    decreases Left(p, depth), 0, |arcs|
  {
    if arcs == [] then 0 else VisitsArc(p, arcs[0], delta, depth) + VisitsVia(p, arcs[1..], delta, depth)
  }

  ghost function VisitsArc(p: Params, a: Arc, delta: real, depth: nat): nat
    requires Closed(p.net) && a.target in p.net && depth < p.maxDepth
    decreases Left(p, depth), 0, 0
  {
    var m := Message(p, a.weight, delta);
    if Abs(m) < p.threshold then 0 else Visits(p, a.target, m, depth + 1)
  }

  ghost function QueueVisits(p: Params, q: seq<Task>): nat
    requires Closed(p.net) && forall k :: 0 <= k < |q| ==> q[k].node in p.net
  {
    if q == [] then 0 else Visits(p, q[0].node, q[0].delta, q[0].depth) + QueueVisits(p, q[1..])
  }

  lemma {:induction false} QueueVisitsSnoc(p: Params, q: seq<Task>, t: Task)
    requires Closed(p.net) && t.node in p.net && forall k :: 0 <= k < |q| ==> q[k].node in p.net
    ensures QueueVisits(p, q + [t]) == QueueVisits(p, q) + Visits(p, t.node, t.delta, t.depth)
  {
    if q == [] {
      assert q + [t] == [t];
      assert QueueVisits(p, [t]) == Visits(p, t.node, t.delta, t.depth) + QueueVisits(p, []);
    } else {
      assert (q + [t])[1..] == q[1..] + [t];
      QueueVisitsSnoc(p, q[1..], t);
    }
  }

  // ---------- a drain processes exactly those tasks ----------

  lemma DeliverArcVisits(p: Params, s: Bfs, arcs: seq<Arc>, delta: real, depth: nat)
    requires Ready(p, s) && ArcsWithin(p.net, arcs) && depth < p.maxDepth && arcs != []
    requires ClampFreeVia(p, s, arcs, delta, depth)
    ensures var s' := DeliverArc(p, s, arcs[0], delta, depth);
      QueueVisits(p, s'.queue) == QueueVisits(p, s.queue) + VisitsArc(p, arcs[0], delta, depth)
  {
    var m := Message(p, arcs[0].weight, delta);
    if Abs(m) >= p.threshold {
      MessageLands(p, s, arcs, delta, depth);
      QueueVisitsSnoc(p, s.queue, Task(arcs[0].target, m, depth + 1));
    }
  }

  lemma ClampFreeNext(p: Params, s: Bfs, arcs: seq<Arc>, delta: real, depth: nat)
    requires Ready(p, s) && ArcsWithin(p.net, arcs) && depth < p.maxDepth && arcs != []
    requires ClampFreeVia(p, s, arcs, delta, depth)
    ensures ClampFreeVia(p, DeliverArc(p, s, arcs[0], delta, depth), arcs[1..], delta, depth)
  {
    var s' := DeliverArc(p, s, arcs[0], delta, depth);
    forall v | v in p.net
      ensures HasRoom(s'.implied[v],
                      QueueInflow(p, true, s'.queue, v) + InflowVia(p, true, arcs[1..], delta, depth, v)) {
      DeliverArcSums(p, s, arcs, delta, depth, v);
    }
  }

  lemma {:induction false} DeliverVisits(p: Params, s: Bfs, arcs: seq<Arc>, delta: real, depth: nat)
    requires Ready(p, s) && ArcsWithin(p.net, arcs) && depth < p.maxDepth
    requires ClampFreeVia(p, s, arcs, delta, depth)
    ensures QueueVisits(p, Deliver(p, s, arcs, delta, depth).queue)
         == QueueVisits(p, s.queue) + VisitsVia(p, arcs, delta, depth)
    decreases |arcs|
  {
    if arcs != [] {
      hide ClampFreeVia, DeliverArc;
      DeliverArcVisits(p, s, arcs, delta, depth);
      ClampFreeNext(p, s, arcs, delta, depth);
      DeliverVisits(p, DeliverArc(p, s, arcs[0], delta, depth), arcs[1..], delta, depth);
    }
  }

  lemma PoppedClampFree(p: Params, s: Bfs)
    requires Ready(p, s) && ClampFree(p, s) && s.queue != [] && s.queue[0].depth < p.maxDepth
    ensures var t := s.queue[0];
      ClampFreeVia(p, s.(queue := s.queue[1..], iterations := s.iterations + 1), p.net[t.node], t.delta, t.depth)
  {
    forall v | v in p.net
      ensures HasRoom(s.implied[v], QueueInflow(p, true, s.queue[1..], v)
                      + InflowVia(p, true, p.net[s.queue[0].node], s.queue[0].delta, s.queue[0].depth, v)) {
      assert HasRoom(s.implied[v], QueueInflow(p, true, s.queue, v));
    }
  }

  lemma PoppedAtLimit(p: Params, s: Bfs)
    requires Ready(p, s) && ClampFree(p, s) && s.queue != [] && s.queue[0].depth >= p.maxDepth
    ensures ClampFree(p, Step(p, s))
  {
    forall v | v in p.net ensures HasRoom(s.implied[v], QueueInflow(p, true, s.queue[1..], v)) {
      assert HasRoom(s.implied[v], QueueInflow(p, true, s.queue, v));
    }
  }

  lemma StepInsideVisits(p: Params, s: Bfs)
    requires Ready(p, s) && ClampFree(p, s) && s.queue != [] && s.queue[0].depth < p.maxDepth
    ensures ClampFree(p, Step(p, s)) && Step(p, s).iterations == s.iterations + 1
    ensures QueueVisits(p, Step(p, s).queue)
         == QueueVisits(p, s.queue[1..]) + VisitsVia(p, p.net[s.queue[0].node], s.queue[0].delta, s.queue[0].depth)
  {
    var t := s.queue[0];
    var popped := s.(queue := s.queue[1..], iterations := s.iterations + 1);
    PoppedClampFree(p, s);
    hide ClampFree, ClampFreeVia, Deliver, QueueVisits, VisitsVia, Load;
    assert Step(p, s) == Deliver(p, popped, p.net[t.node], t.delta, t.depth);
    hide Step;
    DeliverVisits(p, popped, p.net[t.node], t.delta, t.depth);
    DeliverClampFree(p, popped, p.net[t.node], t.delta, t.depth);
  }

  lemma DeliverClampFree(p: Params, s: Bfs, arcs: seq<Arc>, delta: real, depth: nat)
    requires Ready(p, s) && ArcsWithin(p.net, arcs) && depth < p.maxDepth && ClampFreeVia(p, s, arcs, delta, depth)
    ensures ClampFree(p, Deliver(p, s, arcs, delta, depth))
    ensures Deliver(p, s, arcs, delta, depth).iterations == s.iterations
  {
    hide ClampFree, ClampFreeVia, Deliver, Load, QueueInflow, InflowVia;
    DeliverSums(p, s, arcs, delta, depth);
    DeliverLoad(p, s, arcs, delta, depth, 0);
  }

  lemma StepVisits(p: Params, s: Bfs)
    requires Ready(p, s) && ClampFree(p, s) && s.queue != []
    ensures ClampFree(p, Step(p, s))
    ensures Step(p, s).iterations + QueueVisits(p, Step(p, s).queue) == s.iterations + QueueVisits(p, s.queue)
  {
    if s.queue[0].depth < p.maxDepth {
      hide ClampFree, Step;
      StepInsideVisits(p, s);
    } else {
      PoppedAtLimit(p, s);
    }
  }

  /** When no clamp can fire, the loop processes exactly the tasks of the queued message trees. */
  lemma {:induction false} DrainVisits(p: Params, s: Bfs)
    requires Ready(p, s) && ClampFree(p, s)
    ensures Drain(p, s).iterations == s.iterations + QueueVisits(p, s.queue)
    decreases Load(p, s.queue, 1)
  {
    if s.queue != [] {
      hide Step, ClampFree;
      StepVisits(p, s);
      StepLoad(p, s, 1);
      DrainVisits(p, Step(p, s));
    }
  }

  // ---------- tasks are walks ----------

  /** How many of the walks have every message pass. */
  ghost function Passing(p: Params, ws: seq<seq<Arc>>, delta: real): nat {
    if ws == [] then 0 else (if EveryMessagePasses(p, ws[0], delta) then 1 else 0) + Passing(p, ws[1..], delta)
  }

  lemma {:induction false} PassingAppend(p: Params, ws: seq<seq<Arc>>, us: seq<seq<Arc>>, delta: real)
    ensures Passing(p, ws + us, delta) == Passing(p, ws, delta) + Passing(p, us, delta)
  {
    if ws == [] {
      assert ws + us == us;
    } else {
      assert (ws + us)[1..] == ws[1..] + us;
      PassingAppend(p, ws[1..], us, delta);
    }
  }

  lemma {:induction false} PassingPrepend(p: Params, a: Arc, ws: seq<seq<Arc>>, delta: real)
    ensures var m := Message(p, a.weight, delta);
      Passing(p, Prepend(a, ws), delta) == if Abs(m) < p.threshold then 0 else Passing(p, ws, m)
  {
    if ws != [] {
      assert ([a] + ws[0])[1..] == ws[0];
      assert Prepend(a, ws)[1..] == Prepend(a, ws[1..]);
      PassingPrepend(p, a, ws[1..], delta);
    }
  }

  lemma PassingOne(p: Params, a: Arc, delta: real)
    ensures Passing(p, [[a]], delta) == if Abs(Message(p, a.weight, delta)) < p.threshold then 0 else 1
  {
    assert [a][1..] == [];
    assert Passing(p, [[a]], delta) == (if EveryMessagePasses(p, [a], delta) then 1 else 0) + Passing(p, [], delta);
  }

  /** A task's tree has one task for the empty walk and one for each walk, one edge short of the
      remaining depth at most, whose every message passes. */
  lemma {:induction false} VisitsAreWalks(p: Params, n: NodeIdx, delta: real, depth: nat)
    requires Closed(p.net) && n in p.net && depth < p.maxDepth
    ensures Visits(p, n, delta, depth) == 1 + Passing(p, Walks(p.net, n, Left(p, depth) - 1), delta)
    decreases Left(p, depth), 1, 0
  {
    VisitsViaAreWalks(p, p.net[n], delta, depth);
  }

  lemma {:induction false} VisitsViaAreWalks(p: Params, arcs: seq<Arc>, delta: real, depth: nat)
    requires Closed(p.net) && ArcsWithin(p.net, arcs) && depth < p.maxDepth
    ensures VisitsVia(p, arcs, delta, depth)
         == if Left(p, depth) == 1 then 0 else Passing(p, WalksVia(p.net, arcs, Left(p, depth) - 1), delta)
    decreases Left(p, depth), 0, |arcs|
  {
    if arcs != [] {
      VisitsViaAreWalks(p, arcs[1..], delta, depth);
      var a, k := arcs[0], Left(p, depth) - 1;
      var m := Message(p, a.weight, delta);
      if k == 0 {
        assert Visits(p, a.target, m, depth + 1) == 0;
      } else {
        VisitsAreWalks(p, a.target, m, depth + 1);
        var below := Walks(p.net, a.target, k - 1);
        PassingOne(p, a, delta);
        PassingPrepend(p, a, below, delta);
        PassingAppend(p, [[a]], Prepend(a, below), delta);
        PassingAppend(p, [[a]] + Prepend(a, below), WalksVia(p.net, arcs[1..], k), delta);
      }
    }
  }

  /** Over all seeds: the walks of 0..maxDepth-1 edges whose every message passes. */
  ghost function SeedWalkCount(p: Params, seeds: seq<Task>): nat
    requires Closed(p.net) && forall k :: 0 <= k < |seeds| ==> seeds[k].node in p.net
  {
    if seeds == [] || p.maxDepth == 0 then 0 else
      1 + Passing(p, Walks(p.net, seeds[0].node, p.maxDepth - 1), seeds[0].delta) + SeedWalkCount(p, seeds[1..])
  }

  lemma {:induction false} SeedVisits(p: Params, seeds: seq<Task>)
    requires Closed(p.net)
    requires forall k :: 0 <= k < |seeds| ==> seeds[k].node in p.net && seeds[k].depth == 0
    ensures QueueVisits(p, seeds) == SeedWalkCount(p, seeds)
  {
    if seeds != [] {
      SeedVisits(p, seeds[1..]);
      if p.maxDepth > 0 {
        VisitsAreWalks(p, seeds[0].node, seeds[0].delta, 0);
      }
    }
  }

  /** When no clamp can fire, a pass processes exactly one task per walk of 0..maxDepth-1 edges from a seed
      whose every message passes the threshold. */
  lemma PassIsWalkCount(p: Params, start: map<NodeIdx, real>, seeds: seq<Task>)
    requires Closed(p.net) && start.Keys == p.net.Keys
    requires forall k :: 0 <= k < |seeds| ==> seeds[k].node in p.net && seeds[k].depth == 0
    requires RoomForAll(p, start, seeds)
    ensures Ready(p, Start(start, seeds)) && Drain(p, Start(start, seeds)).iterations == SeedWalkCount(p, seeds)
  {
    hide Drain, RoomForAll, ClampFree;
    PassIsWalkSum(p, start, seeds);
    DrainVisits(p, Start(start, seeds));
    SeedVisits(p, seeds);
  }

  // ---------- where the tree bound is reached ----------

  /** Every node has b arcs of full weight. */
  ghost predicate Uniform(net: Net, b: nat) {
    forall n :: n in net ==> |net[n]| == b && forall k :: 0 <= k < b ==> net[n][k].weight == 1.0
  }

  /** A message of the given size passes over k further arcs of full weight. */
  ghost predicate Carries(p: Params, size: real, k: nat)
    decreases k
  {
    k == 0 || (Times(size, p.damping) >= p.threshold && Carries(p, Times(size, p.damping), k - 1))
  }

  lemma FullMessage(p: Params, delta: real)
    requires p.damping >= 0.0
    ensures Abs(Message(p, 1.0, delta)) == Times(Abs(delta), p.damping)
  {
    assert Message(p, 1.0, delta) == delta * p.damping;
    if delta >= 0.0 {
      NonNegativeProduct(delta, p.damping);
    } else {
      NonNegativeProduct(-delta, p.damping);
      assert -(delta * p.damping) == -delta * p.damping;
    }
  }

  /** Where every message passes, the tree below a task is the full b-ary one. */
  lemma {:induction false} UniformVisits(p: Params, b: nat, n: NodeIdx, delta: real, depth: nat)
    requires Closed(p.net) && n in p.net && Uniform(p.net, b) && p.damping >= 0.0
    requires depth < p.maxDepth ==> Carries(p, Abs(delta), Left(p, depth) - 1)
    ensures Visits(p, n, delta, depth) == Tree(b, Left(p, depth))
    decreases Left(p, depth), 1, 0
  {
    if depth < p.maxDepth {
      UniformVisitsVia(p, b, p.net[n], delta, depth);
    }
  }

  lemma {:induction false} UniformVisitsVia(p: Params, b: nat, arcs: seq<Arc>, delta: real, depth: nat)
    requires Closed(p.net) && ArcsWithin(p.net, arcs) && Uniform(p.net, b) && p.damping >= 0.0
    requires depth < p.maxDepth && Carries(p, Abs(delta), Left(p, depth) - 1)
    requires forall k :: 0 <= k < |arcs| ==> arcs[k].weight == 1.0
    ensures VisitsVia(p, arcs, delta, depth) == |arcs| * Tree(b, Left(p, depth) - 1)
    decreases Left(p, depth), 0, |arcs|
  {
    hide Uniform;
    if arcs != [] {
      UniformVisitsVia(p, b, arcs[1..], delta, depth);
      Spread(|arcs| - 1, Tree(b, Left(p, depth) - 1));
      UniformArc(p, b, arcs[0], delta, depth);
    }
  }

  lemma {:induction false} UniformArc(p: Params, b: nat, a: Arc, delta: real, depth: nat)
    requires Closed(p.net) && a.target in p.net && Uniform(p.net, b) && p.damping >= 0.0 && a.weight == 1.0
    requires depth < p.maxDepth && Carries(p, Abs(delta), Left(p, depth) - 1)
    ensures VisitsArc(p, a, delta, depth) == Tree(b, Left(p, depth) - 1)
    decreases Left(p, depth), 0, 0
  {
    hide Uniform, Times, Message;
    FullMessage(p, delta);
    UniformVisits(p, b, a.target, Message(p, a.weight, delta), depth + 1);
  }

  /** The tree bound is reached: where every node has b arcs of full weight and every message passes, the count
      of walks is |seeds| * (1 + b + ... + b^(maxDepth-1)). */
  lemma {:induction false} BoundReached(p: Params, b: nat, seeds: seq<Task>)
    requires Closed(p.net) && Uniform(p.net, b) && p.damping >= 0.0
    requires forall k :: 0 <= k < |seeds| ==> seeds[k].node in p.net
    requires p.maxDepth > 0 ==> forall k :: 0 <= k < |seeds| ==> Carries(p, Abs(seeds[k].delta), p.maxDepth - 1)
    ensures SeedWalkCount(p, seeds) == |seeds| * Tree(b, p.maxDepth)
  {
    hide Uniform, Closed, Carries, Tree;
    if seeds != [] {
      BoundReached(p, b, seeds[1..]);
      Spread(|seeds| - 1, Tree(b, p.maxDepth));
      if p.maxDepth > 0 {
        UniformVisits(p, b, seeds[0].node, seeds[0].delta, 0);
        VisitsAreWalks(p, seeds[0].node, seeds[0].delta, 0);
      } else {
        NoTree(b);
      }
    } else {
      NatTimesMonotone(0, 0, Tree(b, p.maxDepth));
    }
  }

  lemma NoTree(b: nat)
    ensures Tree(b, 0) == 0
  {
  }

  // ---------- a simple guard against clamps ----------

  /** At most b arcs a node, none of more than full weight, and damping at most 1/(2b). */
  ghost predicate Halving(p: Params, b: nat) {
    && p.damping >= 0.0 && 2.0 * Times(b as real, p.damping) <= 1.0
    && forall n :: n in p.net ==> |p.net[n]| <= b && forall k :: 0 <= k < |p.net[n]| ==> Abs(p.net[n][k].weight) <= 1.0
  }

  /** Then all messages a task sets off together are no larger than the task's own change. */
  lemma {:induction false} HalvingInflow(p: Params, b: nat, n: NodeIdx, delta: real, depth: nat, v: NodeIdx)
    requires Closed(p.net) && n in p.net && Halving(p, b)
    ensures Inflow(p, true, n, delta, depth, v) <= Abs(delta)
    decreases Left(p, depth), 1, 0
  {
    if depth < p.maxDepth {
      hide Times, Abs;
      HalvingInflowVia(p, b, p.net[n], delta, depth, v);
      ShareOfDelta(p.damping, b, |p.net[n]|, delta);
    }
  }

  lemma ShareOfDelta(damping: real, b: nat, n: nat, delta: real)
    requires damping >= 0.0 && n <= b && 2.0 * Times(b as real, damping) <= 1.0
    ensures Times(n as real, 2.0 * Times(Abs(delta), damping)) <= Abs(delta)
  {
    var x, c := Abs(delta), n as real;
    NonNegativeProduct((b - n) as real, damping);
    assert b as real == c + (b - n) as real;
    assert b as real * damping == c * damping + (b - n) as real * damping;
    assert c * damping <= b as real * damping;
    NonNegativeProduct(x, 1.0 - 2.0 * (c * damping));
    assert c * (2.0 * (x * damping)) == x * (2.0 * (c * damping));
  }

  lemma {:induction false} HalvingInflowVia(p: Params, b: nat, arcs: seq<Arc>, delta: real, depth: nat, v: NodeIdx)
    requires Closed(p.net) && ArcsWithin(p.net, arcs) && Halving(p, b) && depth < p.maxDepth
    requires forall k :: 0 <= k < |arcs| ==> Abs(arcs[k].weight) <= 1.0
    ensures InflowVia(p, true, arcs, delta, depth, v) <= Times(|arcs| as real, 2.0 * Times(Abs(delta), p.damping))
    decreases Left(p, depth), 0, |arcs|
  {
    var unit := 2.0 * Times(Abs(delta), p.damping);
    if arcs == [] {
      TimesSum(unit, 0.0, 0.0);
    } else {
      TimesNext(|arcs| - 1, unit);
      MessageShrinks(p, arcs[0].weight, delta);
      hide Times, Abs, Halving;
      HalvingInflowVia(p, b, arcs[1..], delta, depth, v);
      HalvingInflow(p, b, arcs[0].target, Message(p, arcs[0].weight, delta), depth + 1, v);
    }
  }

  lemma MessageShrinks(p: Params, weight: real, delta: real)
    requires Abs(weight) <= 1.0 && p.damping >= 0.0
    ensures Abs(Message(p, weight, delta)) <= Times(Abs(delta), p.damping)
  {
    DampedProduct(weight, delta, p.damping, Abs(delta));
  }

  /** A pass from one seed has room when every node has room for the seed's change. */
  lemma HalvingRoom(p: Params, b: nat, start: map<NodeIdx, real>, t: Task)
    requires Closed(p.net) && start.Keys == p.net.Keys && Halving(p, b) && t.node in p.net && t.depth == 0
    requires forall v :: v in p.net ==> HasRoom(start[v], Abs(t.delta))
    ensures RoomForAll(p, start, [t])
  {
    forall v | v in p.net ensures HasRoom(start[v], SeedWalkSum(p, true, [t], v)) {
      HalvingInflow(p, b, t.node, t.delta, 0, v);
      SeedInflow(p, true, [t], v);
      assert QueueInflow(p, true, [t], v) == Inflow(p, true, t.node, t.delta, 0, v) + QueueInflow(p, true, [], v);
    }
  }
}
