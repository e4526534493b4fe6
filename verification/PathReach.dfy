/** Which tasks a pass ever queues: one for the end of every walk whose every message passes. Hence which
    nodes it writes to, and when it meets the depth limit. */
module PathReach {
  import opened Sums
  import opened Propagation
  import opened PathSums
  import opened PathCounts

  // ---------- the tasks below a task ----------

  /** Some task that the message tree of a task at `n` queues is one of `goal` (clamps ignored). */
  ghost predicate Sends(p: Params, n: NodeIdx, delta: real, depth: nat, goal: Task -> bool)
    requires Closed(p.net) && n in p.net
    decreases Left(p, depth), 1, 0
  {
    depth < p.maxDepth && SendsVia(p, p.net[n], delta, depth, goal)
  }

  ghost predicate SendsVia(p: Params, arcs: seq<Arc>, delta: real, depth: nat, goal: Task -> bool)
    requires Closed(p.net) && ArcsWithin(p.net, arcs) && depth < p.maxDepth
    decreases Left(p, depth), 0, |arcs|
  {
    arcs != [] && (SendsArc(p, arcs[0], delta, depth, goal) || SendsVia(p, arcs[1..], delta, depth, goal))
  }

  ghost predicate SendsArc(p: Params, a: Arc, delta: real, depth: nat, goal: Task -> bool)
    requires Closed(p.net) && a.target in p.net && depth < p.maxDepth
    decreases Left(p, depth), 0, 0
  {
    var m := Message(p, a.weight, delta);
    Abs(m) >= p.threshold && (goal(Task(a.target, m, depth + 1)) || Sends(p, a.target, m, depth + 1, goal))
  }

  /** The same for a queue; with `own` its tasks count too. */
  ghost predicate QueueSends(p: Params, q: seq<Task>, own: bool, goal: Task -> bool)
    requires Closed(p.net) && forall k :: 0 <= k < |q| ==> q[k].node in p.net
  {
    q != [] && ((own && goal(q[0])) || Sends(p, q[0].node, q[0].delta, q[0].depth, goal)
                || QueueSends(p, q[1..], own, goal))
  }

  lemma {:induction false} QueueSendsSnoc(p: Params, q: seq<Task>, t: Task, own: bool, goal: Task -> bool)
    requires Closed(p.net) && t.node in p.net && forall k :: 0 <= k < |q| ==> q[k].node in p.net
    ensures QueueSends(p, q + [t], own, goal)
       <==> QueueSends(p, q, own, goal) || (own && goal(t)) || Sends(p, t.node, t.delta, t.depth, goal)
  {
    if q == [] {
      assert q + [t] == [t];
      assert !QueueSends(p, [t][1..], own, goal);
    } else {
      assert (q + [t])[1..] == q[1..] + [t];
      QueueSendsSnoc(p, q[1..], t, own, goal);
    }
  }

  // ---------- what a drain writes to and drops ----------

  function AtNode(v: NodeIdx): Task -> bool {
    (t: Task) => t.node == v
  }

  function AtLimit(p: Params): Task -> bool {
    (t: Task) => t.depth >= p.maxDepth
  }

  /** The node has been written to, or a queued task will see to it. */
  ghost predicate WillTouch(p: Params, s: Bfs, v: NodeIdx)
    requires Ready(p, s)
  {
    v in s.touched || QueueSends(p, s.queue, false, AtNode(v))
  }

  ghost predicate WillDrop(p: Params, s: Bfs)
    requires Ready(p, s)
  {
    s.depthLimited || QueueSends(p, s.queue, true, AtLimit(p))
  }

  lemma DeliverArcSends(p: Params, s: Bfs, arcs: seq<Arc>, delta: real, depth: nat, v: NodeIdx)
    requires Ready(p, s) && ArcsWithin(p.net, arcs) && depth < p.maxDepth && arcs != []
    requires ClampFreeVia(p, s, arcs, delta, depth)
    ensures var s' := DeliverArc(p, s, arcs[0], delta, depth);
      && (WillTouch(p, s', v) <==> WillTouch(p, s, v) || SendsArc(p, arcs[0], delta, depth, AtNode(v)))
      && (WillDrop(p, s') <==> WillDrop(p, s) || SendsArc(p, arcs[0], delta, depth, AtLimit(p)))
  {
    var m := Message(p, arcs[0].weight, delta);
    if Abs(m) >= p.threshold {
      MessageLands(p, s, arcs, delta, depth);
      var t := Task(arcs[0].target, m, depth + 1);
      QueueSendsSnoc(p, s.queue, t, false, AtNode(v));
      QueueSendsSnoc(p, s.queue, t, true, AtLimit(p));
    }
  }

  lemma {:induction false} DeliverSends(p: Params, s: Bfs, arcs: seq<Arc>, delta: real, depth: nat, v: NodeIdx)
    requires Ready(p, s) && ArcsWithin(p.net, arcs) && depth < p.maxDepth
    requires ClampFreeVia(p, s, arcs, delta, depth)
    ensures var s' := Deliver(p, s, arcs, delta, depth);
      && (WillTouch(p, s', v) <==> WillTouch(p, s, v) || SendsVia(p, arcs, delta, depth, AtNode(v)))
      && (WillDrop(p, s') <==> WillDrop(p, s) || SendsVia(p, arcs, delta, depth, AtLimit(p)))
    decreases |arcs|
  {
    if arcs != [] {
      hide ClampFreeVia, DeliverArc, WillTouch, WillDrop, SendsArc;
      DeliverArcSends(p, s, arcs, delta, depth, v);
      ClampFreeNext(p, s, arcs, delta, depth);
      DeliverSends(p, DeliverArc(p, s, arcs[0], delta, depth), arcs[1..], delta, depth, v);
    }
  }

  lemma StepSends(p: Params, s: Bfs, v: NodeIdx)
    requires Ready(p, s) && ClampFree(p, s) && s.queue != []
    ensures WillTouch(p, Step(p, s), v) <==> WillTouch(p, s, v)
    ensures WillDrop(p, Step(p, s)) <==> WillDrop(p, s)
  {
    var t := s.queue[0];
    if t.depth < p.maxDepth {
      var popped := s.(queue := s.queue[1..], iterations := s.iterations + 1);
      PoppedClampFree(p, s);
      hide ClampFree, ClampFreeVia, Deliver, SendsVia;
      DeliverSends(p, popped, p.net[t.node], t.delta, t.depth, v);
    }
  }

  /** When no clamp can fire, a drain writes to exactly the nodes that the queued message trees reach, and
      drops a task exactly when one of them reaches the depth limit. */
  lemma {:induction false} DrainSends(p: Params, s: Bfs, v: NodeIdx)
    requires Ready(p, s) && ClampFree(p, s)
    ensures v in Drain(p, s).touched <==> WillTouch(p, s, v)
    ensures Drain(p, s).depthLimited <==> WillDrop(p, s)
    decreases Load(p, s.queue, 1)
  {
    if s.queue != [] {
      hide Step, ClampFree, WillTouch, WillDrop;
      StepVisits(p, s);
      StepSends(p, s, v);
      StepLoad(p, s, 1);
      DrainSends(p, Step(p, s), v);
    }
  }

  // ---------- the same in terms of walks ----------

  /** The task that the last message of a walk queues. */
  ghost function EndOf(p: Params, w: seq<Arc>, delta: real, depth: nat): Task
    requires w != []
  {
    Task(w[|w| - 1].target, WalkMessage(p, w, delta), depth + |w|)
  }

  /** A walk that fits in the remaining depth, whose every message passes, and whose end is one of `goal`. */
  ghost predicate GoalWalk(p: Params, n: NodeIdx, delta: real, depth: nat, goal: Task -> bool, w: seq<Arc>) {
    && 1 <= |w| <= Left(p, depth) && IsWalk(p.net, n, w) && EveryMessagePasses(p, w, delta)
    && goal(EndOf(p, w, delta, depth))
  }

  lemma EndOfTail(p: Params, w: seq<Arc>, delta: real, depth: nat)
    requires |w| > 1
    ensures EndOf(p, w, delta, depth) == EndOf(p, w[1..], Message(p, w[0].weight, delta), depth + 1)
  {
  }

  lemma EndOfOne(p: Params, w: seq<Arc>, delta: real, depth: nat)
    requires |w| == 1
    ensures EndOf(p, w, delta, depth) == Task(w[0].target, Message(p, w[0].weight, delta), depth + 1)
  {
    assert w[1..] == [];
    assert WalkMessage(p, w[1..], Message(p, w[0].weight, delta)) == Message(p, w[0].weight, delta);
  }

  /** A walk leads to a task of the tree. */
  lemma {:induction false} WalkSends(p: Params, n: NodeIdx, delta: real, depth: nat, goal: Task -> bool, w: seq<Arc>)
    requires Closed(p.net) && n in p.net && GoalWalk(p, n, delta, depth, goal, w)
    ensures Sends(p, n, delta, depth, goal)
    decreases |w|
  {
    var a, m := w[0], Message(p, w[0].weight, delta);
    var k :| 0 <= k < |p.net[n]| && p.net[n][k] == a;
    if |w| == 1 {
      EndOfOne(p, w, delta, depth);
    } else {
      EndOfTail(p, w, delta, depth);
      WalkSends(p, a.target, m, depth + 1, goal, w[1..]);
    }
    ArcSends(p, p.net[n], delta, depth, goal, k);
  }

  lemma {:induction false} ArcSends(p: Params, arcs: seq<Arc>, delta: real, depth: nat, goal: Task -> bool, k: nat)
    requires Closed(p.net) && ArcsWithin(p.net, arcs) && depth < p.maxDepth
    requires k < |arcs| && SendsArc(p, arcs[k], delta, depth, goal)
    ensures SendsVia(p, arcs, delta, depth, goal)
    decreases k
  {
    if k > 0 {
      ArcSends(p, arcs[1..], delta, depth, goal, k - 1);
    }
  }

  /** And every task of the tree has a walk that leads to it. */
  lemma {:induction false} SendsWalk(p: Params, n: NodeIdx, delta: real, depth: nat, goal: Task -> bool)
    returns (w: seq<Arc>)
    requires Closed(p.net) && n in p.net && Sends(p, n, delta, depth, goal)
    ensures GoalWalk(p, n, delta, depth, goal, w)
    decreases Left(p, depth), 1, 0
  {
    w := SendsViaWalk(p, p.net[n], delta, depth, goal);
    assert w[0] in p.net[n];
  }

  lemma {:induction false} SendsViaWalk(p: Params, arcs: seq<Arc>, delta: real, depth: nat, goal: Task -> bool)
    returns (w: seq<Arc>)
    requires Closed(p.net) && ArcsWithin(p.net, arcs) && depth < p.maxDepth && SendsVia(p, arcs, delta, depth, goal)
    ensures 1 <= |w| <= Left(p, depth) && w[0] in arcs && IsWalk(p.net, w[0].target, w[1..])
    ensures EveryMessagePasses(p, w, delta) && goal(EndOf(p, w, delta, depth))
    decreases Left(p, depth), 0, |arcs|
  {
    var a := arcs[0];
    var m := Message(p, a.weight, delta);
    if !SendsArc(p, a, delta, depth, goal) {
      w := SendsViaWalk(p, arcs[1..], delta, depth, goal);
    } else if goal(Task(a.target, m, depth + 1)) {
      w := [a];
      EndOfOne(p, w, delta, depth);
    } else {
      var rest := SendsWalk(p, a.target, m, depth + 1, goal);
      w := [a] + rest;
      assert w[1..] == rest;
      EndOfTail(p, w, delta, depth);
    }
  }

  // ---------- a pass ----------

  /** Some walk of 1..maxDepth arcs from a seed, whose every message passes, ends at `v`. */
  ghost predicate WalkEndsAt(p: Params, seeds: seq<Task>, v: NodeIdx) {
    exists k, w :: 0 <= k < |seeds| && WalkTo(p, seeds[k], w, v)
  }

  /** Some walk of exactly maxDepth arcs from a seed has every message pass. */
  ghost predicate FullWalk(p: Params, seeds: seq<Task>) {
    exists k, w :: 0 <= k < |seeds| && PassingWalk(p, seeds[k], w) && |w| == p.maxDepth
  }

  ghost predicate PassingWalk(p: Params, seed: Task, w: seq<Arc>) {
    IsWalk(p.net, seed.node, w) && EveryMessagePasses(p, w, seed.delta)
  }

  ghost predicate WalkTo(p: Params, seed: Task, w: seq<Arc>, v: NodeIdx) {
    PassingWalk(p, seed, w) && 1 <= |w| <= p.maxDepth && w[|w| - 1].target == v
  }

  lemma {:induction false} QueueSendsSome(p: Params, q: seq<Task>, own: bool, goal: Task -> bool)
    requires Closed(p.net) && forall k :: 0 <= k < |q| ==> q[k].node in p.net
    ensures QueueSends(p, q, own, goal)
       <==> exists k :: 0 <= k < |q| && ((own && goal(q[k])) || Sends(p, q[k].node, q[k].delta, q[k].depth, goal))
  {
    if q != [] {
      QueueSendsSome(p, q[1..], own, goal);
      assert forall k :: 1 <= k < |q| ==> q[k] == q[1..][k - 1];
    }
  }

  lemma SeedSendsNode(p: Params, t: Task, v: NodeIdx)
    requires Closed(p.net) && t.node in p.net && t.depth == 0
    ensures Sends(p, t.node, t.delta, t.depth, AtNode(v))
       <==> exists w :: WalkTo(p, t, w, v)
  {
    if Sends(p, t.node, t.delta, t.depth, AtNode(v)) {
      var w := SendsWalk(p, t.node, t.delta, t.depth, AtNode(v));
      assert WalkTo(p, t, w, v);
    }
    if w :| WalkTo(p, t, w, v) {
      WalkSends(p, t.node, t.delta, t.depth, AtNode(v), w);
    }
  }

  lemma SeedSendsLimit(p: Params, t: Task)
    requires Closed(p.net) && t.node in p.net && t.depth == 0
    ensures AtLimit(p)(t) || Sends(p, t.node, t.delta, t.depth, AtLimit(p))
       <==> exists w :: PassingWalk(p, t, w) && |w| == p.maxDepth
  {
    if p.maxDepth == 0 {
      assert PassingWalk(p, t, []);
    } else {
      if Sends(p, t.node, t.delta, t.depth, AtLimit(p)) {
        var w := SendsWalk(p, t.node, t.delta, t.depth, AtLimit(p));
        assert PassingWalk(p, t, w);
      }
      if w :| PassingWalk(p, t, w) && |w| == p.maxDepth {
        WalkSends(p, t.node, t.delta, t.depth, AtLimit(p), w);
      }
    }
  }

  lemma SeedsTouch(p: Params, start: map<NodeIdx, real>, seeds: seq<Task>, v: NodeIdx)
    requires Ready(p, Start(start, seeds)) && forall k :: 0 <= k < |seeds| ==> seeds[k].depth == 0
    ensures WillTouch(p, Start(start, seeds), v) <==> WalkEndsAt(p, seeds, v)
  {
    QueueSendsSome(p, seeds, false, AtNode(v));
    hide Sends, WalkTo;
    forall k | 0 <= k < |seeds|
      ensures Sends(p, seeds[k].node, seeds[k].delta, seeds[k].depth, AtNode(v))
         <==> exists w :: WalkTo(p, seeds[k], w, v) {
      SeedSendsNode(p, seeds[k], v);
    }
  }

  lemma SeedsDrop(p: Params, start: map<NodeIdx, real>, seeds: seq<Task>)
    requires Ready(p, Start(start, seeds)) && forall k :: 0 <= k < |seeds| ==> seeds[k].depth == 0
    ensures WillDrop(p, Start(start, seeds)) <==> FullWalk(p, seeds)
  {
    QueueSendsSome(p, seeds, true, AtLimit(p));
    hide Sends, PassingWalk, AtLimit;
    forall k | 0 <= k < |seeds|
      ensures AtLimit(p)(seeds[k]) || Sends(p, seeds[k].node, seeds[k].delta, seeds[k].depth, AtLimit(p))
         <==> exists w :: PassingWalk(p, seeds[k], w) && |w| == p.maxDepth {
      SeedSendsLimit(p, seeds[k]);
    }
  }

  /** When no clamp can fire, a pass writes to exactly the ends of its passing walks of 1..maxDepth arcs, and
      meets the depth limit exactly when one of them has maxDepth arcs. */
  lemma PassReaches(p: Params, start: map<NodeIdx, real>, seeds: seq<Task>, v: NodeIdx)
    requires Closed(p.net) && start.Keys == p.net.Keys
    requires forall k :: 0 <= k < |seeds| ==> seeds[k].node in p.net && seeds[k].depth == 0
    requires RoomForAll(p, start, seeds)
    ensures Ready(p, Start(start, seeds))
    ensures v in Drain(p, Start(start, seeds)).touched <==> WalkEndsAt(p, seeds, v)
    ensures Drain(p, Start(start, seeds)).depthLimited <==> FullWalk(p, seeds)
  {
    hide Drain, RoomForAll, ClampFree, WillTouch, WillDrop, WalkEndsAt, FullWalk;
    PassIsWalkSum(p, start, seeds);
    DrainSends(p, Start(start, seeds), v);
    SeedsTouch(p, start, seeds, v);
    SeedsDrop(p, start, seeds);
  }
}
