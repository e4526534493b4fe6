/** What a pass computes when no clamp can fire: every node receives the sum, over all walks of
    1..maxDepth arcs from the seeds, of the damped weighted deltas whose every message passes the threshold. */
module PathSums {
  import opened Sums
  import opened Propagation

  /** The signed message, or its size. */
  function Val(size: bool, m: real): real {
    if size then Abs(m) else m
  }

  // ---------- the message tree below a task ----------

  /** Sum of the messages that reach `v` from the tree of messages a task at `n` sets off (clamps ignored). */
  ghost function Inflow(p: Params, size: bool, n: NodeIdx, delta: real, depth: nat, v: NodeIdx): real
    requires Closed(p.net) && n in p.net
    decreases Left(p, depth), 1, 0
  {
    if depth >= p.maxDepth then 0.0 else InflowVia(p, size, p.net[n], delta, depth, v)
  }

  ghost function InflowVia(p: Params, size: bool, arcs: seq<Arc>, delta: real, depth: nat, v: NodeIdx): real
    requires Closed(p.net) && ArcsWithin(p.net, arcs) && depth < p.maxDepth
    decreases Left(p, depth), 0, |arcs|
  {
    if arcs == [] then 0.0
    else InflowArc(p, size, arcs[0], delta, depth, v) + InflowVia(p, size, arcs[1..], delta, depth, v)
  }

  ghost function InflowArc(p: Params, size: bool, a: Arc, delta: real, depth: nat, v: NodeIdx): real
    requires Closed(p.net) && a.target in p.net && depth < p.maxDepth
    decreases Left(p, depth), 0, 0
  {
    var m := Message(p, a.weight, delta);
    if Abs(m) < p.threshold then 0.0
    else (if a.target == v then Val(size, m) else 0.0) + Inflow(p, size, a.target, m, depth + 1, v)
  }

  ghost function QueueInflow(p: Params, size: bool, q: seq<Task>, v: NodeIdx): real
    requires Closed(p.net) && forall k :: 0 <= k < |q| ==> q[k].node in p.net
  {
    if q == [] then 0.0
    else Inflow(p, size, q[0].node, q[0].delta, q[0].depth, v) + QueueInflow(p, size, q[1..], v)
  }

  lemma {:induction false} QueueInflowSnoc(p: Params, size: bool, q: seq<Task>, t: Task, v: NodeIdx)
    requires Closed(p.net) && t.node in p.net && forall k :: 0 <= k < |q| ==> q[k].node in p.net
    ensures QueueInflow(p, size, q + [t], v)
         == QueueInflow(p, size, q, v) + Inflow(p, size, t.node, t.delta, t.depth, v)
  {
    if q == [] {
      assert q + [t] == [t];
      assert QueueInflow(p, size, [t], v)
          == Inflow(p, size, t.node, t.delta, t.depth, v) + QueueInflow(p, size, [], v);
    } else {
      assert (q + [t])[1..] == q[1..] + [t];
      QueueInflowSnoc(p, size, q[1..], t, v);
    }
  }

  lemma {:induction false} SizesNonNegative(p: Params, n: NodeIdx, delta: real, depth: nat, v: NodeIdx)
    requires Closed(p.net) && n in p.net
    ensures Inflow(p, true, n, delta, depth, v) >= 0.0
    decreases Left(p, depth), 1, 0
  {
    if depth < p.maxDepth {
      SizesViaNonNegative(p, p.net[n], delta, depth, v);
    }
  }

  lemma {:induction false} SizesViaNonNegative(p: Params, arcs: seq<Arc>, delta: real, depth: nat, v: NodeIdx)
    requires Closed(p.net) && ArcsWithin(p.net, arcs) && depth < p.maxDepth
    ensures InflowVia(p, true, arcs, delta, depth, v) >= 0.0
    decreases Left(p, depth), 0, |arcs|
  {
    if arcs != [] {
      SizesNonNegative(p, arcs[0].target, Message(p, arcs[0].weight, delta), depth + 1, v);
      SizesViaNonNegative(p, arcs[1..], delta, depth, v);
    }
  }

  lemma {:induction false} QueueSizesNonNegative(p: Params, q: seq<Task>, v: NodeIdx)
    requires Closed(p.net) && forall k :: 0 <= k < |q| ==> q[k].node in p.net
    ensures QueueInflow(p, true, q, v) >= 0.0
  {
    if q != [] {
      SizesNonNegative(p, q[0].node, q[0].delta, q[0].depth, v);
      QueueSizesNonNegative(p, q[1..], v);
    }
  }

  // ---------- no clamp fires ----------

  /** Each node's value plus or minus the total size of the messages still to come stays in [0, 1]. */
  ghost predicate ClampFree(p: Params, s: Bfs)
    requires Ready(p, s)
  {
    forall v :: v in p.net ==> HasRoom(s.implied[v], QueueInflow(p, true, s.queue, v))
  }

  ghost predicate HasRoom(x: real, size: real) {
    0.0 <= x - size && x + size <= 1.0
  }

  /** The same in the middle of a task, with `arcs` still to be served. */
  ghost predicate ClampFreeVia(p: Params, s: Bfs, arcs: seq<Arc>, delta: real, depth: nat)
    requires Ready(p, s) && ArcsWithin(p.net, arcs) && depth < p.maxDepth
  {
    forall v :: v in p.net ==>
      HasRoom(s.implied[v], QueueInflow(p, true, s.queue, v) + InflowVia(p, true, arcs, delta, depth, v))
  }

  /** A passing message fits into its target, whatever else is still to come. */
  lemma MessageFits(p: Params, s: Bfs, arcs: seq<Arc>, delta: real, depth: nat)
    requires Ready(p, s) && ArcsWithin(p.net, arcs) && depth < p.maxDepth && arcs != []
    requires ClampFreeVia(p, s, arcs, delta, depth)
    requires Abs(Message(p, arcs[0].weight, delta)) >= p.threshold
    ensures HasRoom(s.implied[arcs[0].target], Abs(Message(p, arcs[0].weight, delta)))
  {
    var v := arcs[0].target;
    var m := Message(p, arcs[0].weight, delta);
    hide Message, QueueInflow, Inflow;
    assert HasRoom(s.implied[v], QueueInflow(p, true, s.queue, v) + InflowVia(p, true, arcs, delta, depth, v));
    QueueSizesNonNegative(p, s.queue, v);
    SizesNonNegative(p, v, m, depth + 1, v);
    SizesViaNonNegative(p, arcs[1..], delta, depth, v);
  }

  /** So it is delivered whole. */
  lemma MessageLands(p: Params, s: Bfs, arcs: seq<Arc>, delta: real, depth: nat)
    requires Ready(p, s) && ArcsWithin(p.net, arcs) && depth < p.maxDepth && arcs != []
    requires ClampFreeVia(p, s, arcs, delta, depth)
    requires Abs(Message(p, arcs[0].weight, delta)) >= p.threshold
    ensures var a := arcs[0];
      var m := Message(p, a.weight, delta);
      var s' := DeliverArc(p, s, a, delta, depth);
      && s'.implied == s.implied[a.target := s.implied[a.target] + m]
      && s'.queue == s.queue + [Task(a.target, m, depth + 1)]
  {
    MessageFits(p, s, arcs, delta, depth);
    hide ClampFreeVia, Message;
    LandsWhole(s.implied[arcs[0].target], Message(p, arcs[0].weight, delta));
  }

  lemma LandsWhole(x: real, m: real)
    requires HasRoom(x, Abs(m))
    ensures Clamp(x + m, 0.0, 1.0) - x == m
  {
  }

  lemma DeliverArcSums(p: Params, s: Bfs, arcs: seq<Arc>, delta: real, depth: nat, v: NodeIdx)
    requires Ready(p, s) && ArcsWithin(p.net, arcs) && depth < p.maxDepth && arcs != []
    requires ClampFreeVia(p, s, arcs, delta, depth) && v in p.net
    ensures var s' := DeliverArc(p, s, arcs[0], delta, depth);
      && s'.implied[v] + QueueInflow(p, false, s'.queue, v)
         == s.implied[v] + QueueInflow(p, false, s.queue, v) + InflowArc(p, false, arcs[0], delta, depth, v)
      && HasRoom(s'.implied[v],
                 QueueInflow(p, true, s'.queue, v) + InflowVia(p, true, arcs[1..], delta, depth, v))
  {
    var a := arcs[0];
    var m := Message(p, a.weight, delta);
    assert HasRoom(s.implied[v], QueueInflow(p, true, s.queue, v) + InflowVia(p, true, arcs, delta, depth, v));
    assert InflowVia(p, true, arcs, delta, depth, v)
        == InflowArc(p, true, a, delta, depth, v) + InflowVia(p, true, arcs[1..], delta, depth, v);
    if Abs(m) >= p.threshold {
      MessageLands(p, s, arcs, delta, depth);
      var t := Task(a.target, m, depth + 1);
      QueueInflowSnoc(p, false, s.queue, t, v);
      QueueInflowSnoc(p, true, s.queue, t, v);
      assert InflowArc(p, true, a, delta, depth, v)
          == (if a.target == v then Abs(m) else 0.0) + Inflow(p, true, a.target, m, depth + 1, v);
      assert DeliverArc(p, s, a, delta, depth).implied[v]
          == s.implied[v] + (if a.target == v then m else 0.0);
    }
  }

  lemma {:induction false} DeliverSums(p: Params, s: Bfs, arcs: seq<Arc>, delta: real, depth: nat)
    requires Ready(p, s) && ArcsWithin(p.net, arcs) && depth < p.maxDepth
    requires ClampFreeVia(p, s, arcs, delta, depth)
    ensures var s' := Deliver(p, s, arcs, delta, depth);
      && ClampFree(p, s')
      && forall v :: v in p.net ==>
          s'.implied[v] + QueueInflow(p, false, s'.queue, v)
          == s.implied[v] + QueueInflow(p, false, s.queue, v) + InflowVia(p, false, arcs, delta, depth, v)
    decreases |arcs|
  {
    if arcs == [] {
      forall v | v in p.net ensures HasRoom(s.implied[v], QueueInflow(p, true, s.queue, v)) {
        assert HasRoom(s.implied[v], QueueInflow(p, true, s.queue, v) + InflowVia(p, true, arcs, delta, depth, v));
      }
    } else {
      var s' := DeliverArc(p, s, arcs[0], delta, depth);
      forall v | v in p.net
        ensures HasRoom(s'.implied[v],
                        QueueInflow(p, true, s'.queue, v) + InflowVia(p, true, arcs[1..], delta, depth, v))
        ensures s'.implied[v] + QueueInflow(p, false, s'.queue, v)
          == s.implied[v] + QueueInflow(p, false, s.queue, v) + InflowArc(p, false, arcs[0], delta, depth, v)
      {
        DeliverArcSums(p, s, arcs, delta, depth, v);
      }
      DeliverSums(p, s', arcs[1..], delta, depth);
    }
  }

  /** The pass adds to every node exactly the inflow of the queued tasks. */
  lemma {:induction false} DrainSums(p: Params, s: Bfs)
    requires Ready(p, s) && ClampFree(p, s)
    ensures forall v :: v in p.net ==>
      Drain(p, s).implied[v] == s.implied[v] + QueueInflow(p, false, s.queue, v)
    decreases Load(p, s.queue, 1)
  {
    hide Deliver;
    if s.queue != [] {
      var t := s.queue[0];
      var popped := s.(queue := s.queue[1..], iterations := s.iterations + 1);
      forall v | v in p.net
        ensures HasRoom(s.implied[v], QueueInflow(p, true, s.queue[1..], v)
                        + Inflow(p, true, t.node, t.delta, t.depth, v))
      {
        assert HasRoom(s.implied[v], QueueInflow(p, true, s.queue, v));
      }
      if t.depth < p.maxDepth {
        assert ClampFreeVia(p, popped, p.net[t.node], t.delta, t.depth);
        DeliverSums(p, popped, p.net[t.node], t.delta, t.depth);
      }
      StepLoad(p, s, 1);
      DrainSums(p, Step(p, s));
    }
  }

  // ---------- the same inflow as a sum over walks ----------

  /** All walks of 1 to `k` arcs from `n`. */
  ghost function Walks(net: Net, n: NodeIdx, k: nat): seq<seq<Arc>>
    requires Closed(net) && n in net
    decreases k, 1, 0
  {
    if k == 0 then [] else WalksVia(net, net[n], k)
  }

  ghost function WalksVia(net: Net, arcs: seq<Arc>, k: nat): seq<seq<Arc>>
    requires Closed(net) && ArcsWithin(net, arcs) && k > 0
    decreases k, 0, |arcs|
  {
    if arcs == [] then []
    else [[arcs[0]]] + Prepend(arcs[0], Walks(net, arcs[0].target, k - 1)) + WalksVia(net, arcs[1..], k)
  }

  ghost function Prepend(a: Arc, ws: seq<seq<Arc>>): seq<seq<Arc>> {
    if ws == [] then [] else [[a] + ws[0]] + Prepend(a, ws[1..])
  }

  /** The message at the end of a walk: the seed delta times every weight, damped once per arc. */
  ghost function WalkMessage(p: Params, w: seq<Arc>, delta: real): real {
    if w == [] then delta else WalkMessage(p, w[1..], Message(p, w[0].weight, delta))
  }

  ghost predicate EveryMessagePasses(p: Params, w: seq<Arc>, delta: real) {
    w == [] ||
    (var m := Message(p, w[0].weight, delta);
     Abs(m) >= p.threshold && EveryMessagePasses(p, w[1..], m))
  }

  ghost function WalkTerm(p: Params, size: bool, w: seq<Arc>, delta: real, v: NodeIdx): real {
    if w != [] && w[|w| - 1].target == v && EveryMessagePasses(p, w, delta)
    then Val(size, WalkMessage(p, w, delta)) else 0.0
  }

  ghost function WalkSum(p: Params, size: bool, ws: seq<seq<Arc>>, delta: real, v: NodeIdx): real {
    if ws == [] then 0.0 else WalkTerm(p, size, ws[0], delta, v) + WalkSum(p, size, ws[1..], delta, v)
  }

  ghost function GainOf(w: seq<Arc>): real {
    if w == [] then 1.0 else w[0].weight * GainOf(w[1..])
  }

  lemma {:induction false} WalkMessageClosedForm(p: Params, w: seq<Arc>, delta: real)
    ensures WalkMessage(p, w, delta) == delta * (GainOf(w) * Pow(p.damping, |w|))
  {
    if w != [] {
      WalkMessageClosedForm(p, w[1..], Message(p, w[0].weight, delta));
      Regroup(w[0].weight, delta, p.damping, GainOf(w[1..]), Pow(p.damping, |w| - 1));
    }
  }

  lemma Regroup(w: real, delta: real, damping: real, gain: real, pow: real)
    ensures (w * delta * damping) * (gain * pow) == delta * ((w * gain) * (damping * pow))
  {
    assert (w * delta * damping) * (gain * pow) == delta * (w * damping * (gain * pow));
    assert w * damping * (gain * pow) == (w * gain) * (damping * pow);
  }

  /** `Walks` lists exactly the walks of 1 to `k` arcs. */
  lemma {:induction false} WalksComplete(net: Net, n: NodeIdx, k: nat, w: seq<Arc>)
    requires Closed(net) && n in net
    ensures w in Walks(net, n, k) <==> IsWalk(net, n, w) && 1 <= |w| <= k
    decreases k, 1, 0
  {
    if k > 0 {
      WalksViaComplete(net, net[n], k, w);
    }
  }

  lemma {:induction false} WalksViaComplete(net: Net, arcs: seq<Arc>, k: nat, w: seq<Arc>)
    requires Closed(net) && ArcsWithin(net, arcs) && k > 0
    ensures w in WalksVia(net, arcs, k)
       <==> 1 <= |w| <= k && w[0] in arcs && IsWalk(net, w[0].target, w[1..])
    decreases k, 0, |arcs|
  {
    if arcs != [] {
      var a := arcs[0];
      PrependMembers(a, Walks(net, a.target, k - 1), w);
      assert w in WalksVia(net, arcs, k) <==>
        w == [a] || w in Prepend(a, Walks(net, a.target, k - 1)) || w in WalksVia(net, arcs[1..], k);
      hide WalksVia, Walks, Prepend;
      WalksViaComplete(net, arcs[1..], k, w);
      if w != [] {
        assert w[0] in arcs <==> w[0] == a || w[0] in arcs[1..];
        WalksComplete(net, a.target, k - 1, w[1..]);
        assert w == [w[0]] + w[1..];
      }
    }
  }

  lemma {:induction false} PrependMembers(a: Arc, ws: seq<seq<Arc>>, w: seq<Arc>)
    ensures w in Prepend(a, ws) <==> w != [] && w[0] == a && w[1..] in ws
  {
    if ws != [] {
      PrependMembers(a, ws[1..], w);
      assert ([a] + ws[0])[1..] == ws[0];
      if w != [] && w[0] == a && w[1..] == ws[0] {
        assert w == [a] + ws[0];
      }
    }
  }

  /** Each walk is listed once, because no two arcs of a node are equal. */
  lemma {:induction false} WalksDistinct(net: Net, n: NodeIdx, k: nat)
    requires Closed(net) && n in net
    requires forall m :: m in net ==> Distinct(net[m])
    ensures Distinct(Walks(net, n, k))
    decreases k, 1, 0
  {
    if k > 0 {
      WalksViaDistinct(net, net[n], k);
    }
  }

  lemma {:induction false} WalksViaDistinct(net: Net, arcs: seq<Arc>, k: nat)
    requires Closed(net) && ArcsWithin(net, arcs) && k > 0
    requires Distinct(arcs) && forall m :: m in net ==> Distinct(net[m])
    ensures Distinct(WalksVia(net, arcs, k))
    decreases k, 0, |arcs|
  {
    if arcs != [] {
      var a := arcs[0];
      var below := Walks(net, a.target, k - 1);
      WalksDistinct(net, a.target, k - 1);
      PrependDistinct(a, below);
      WalksViaDistinct(net, arcs[1..], k);
      assert a !in arcs[1..];
      forall w | w in Prepend(a, below) ensures w != [a] && w !in WalksVia(net, arcs[1..], k) {
        PrependMembers(a, below, w);
        WalksComplete(net, a.target, k - 1, w[1..]);
        WalksViaComplete(net, arcs[1..], k, w);
      }
      WalksViaComplete(net, arcs[1..], k, [a]);
      DistinctAppend([[a]], Prepend(a, below));
      DistinctAppend([[a]] + Prepend(a, below), WalksVia(net, arcs[1..], k));
    }
  }

  lemma {:induction false} PrependDistinct(a: Arc, ws: seq<seq<Arc>>)
    requires Distinct(ws)
    ensures Distinct(Prepend(a, ws))
  {
    if ws != [] {
      PrependDistinct(a, ws[1..]);
      PrependMembers(a, ws[1..], [a] + ws[0]);
      assert ([a] + ws[0])[1..] == ws[0];
      DistinctAppend([[a] + ws[0]], Prepend(a, ws[1..]));
    }
  }

  lemma {:induction false} WalkSumAppend(p: Params, size: bool, ws: seq<seq<Arc>>, us: seq<seq<Arc>>,
                                         delta: real, v: NodeIdx)
    ensures WalkSum(p, size, ws + us, delta, v) == WalkSum(p, size, ws, delta, v) + WalkSum(p, size, us, delta, v)
  {
    if ws == [] {
      assert ws + us == us;
    } else {
      assert (ws + us)[1..] == ws[1..] + us;
      WalkSumAppend(p, size, ws[1..], us, delta, v);
    }
  }

  lemma {:induction false} WalkSumPrepend(p: Params, size: bool, a: Arc, ws: seq<seq<Arc>>, delta: real, v: NodeIdx)
    requires forall k :: 0 <= k < |ws| ==> ws[k] != []
    ensures var m := Message(p, a.weight, delta);
      WalkSum(p, size, Prepend(a, ws), delta, v)
      == if Abs(m) < p.threshold then 0.0 else WalkSum(p, size, ws, m, v)
  {
    if ws != [] {
      assert ([a] + ws[0])[1..] == ws[0];
      WalkSumPrepend(p, size, a, ws[1..], delta, v);
    }
  }

  /** The inflow from a task is the sum over the walks that fit in its remaining depth. */
  lemma {:induction false} InflowIsWalkSum(p: Params, size: bool, n: NodeIdx, delta: real, depth: nat, v: NodeIdx)
    requires Closed(p.net) && n in p.net
    ensures Inflow(p, size, n, delta, depth, v)
         == WalkSum(p, size, Walks(p.net, n, Left(p, depth)), delta, v)
    decreases Left(p, depth), 1, 0
  {
    if depth < p.maxDepth {
      InflowViaIsWalkSum(p, size, p.net[n], delta, depth, v);
    }
  }

  lemma {:induction false} InflowViaIsWalkSum(p: Params, size: bool, arcs: seq<Arc>, delta: real, depth: nat,
                                              v: NodeIdx)
    requires Closed(p.net) && ArcsWithin(p.net, arcs) && depth < p.maxDepth
    ensures InflowVia(p, size, arcs, delta, depth, v)
         == WalkSum(p, size, WalksVia(p.net, arcs, Left(p, depth)), delta, v)
    decreases Left(p, depth), 0, |arcs|
  {
    if arcs != [] {
      var a, k := arcs[0], Left(p, depth);
      var m := Message(p, a.weight, delta);
      var below := Walks(p.net, a.target, k - 1);
      InflowIsWalkSum(p, size, a.target, m, depth + 1, v);
      InflowViaIsWalkSum(p, size, arcs[1..], delta, depth, v);
      forall i | 0 <= i < |below| ensures below[i] != [] {
        WalksComplete(p.net, a.target, k - 1, below[i]);
      }
      WalkSumPrepend(p, size, a, below, delta, v);
      SingleArcTerm(p, size, a, delta, v);
      WalkSumAppend(p, size, [[a]], Prepend(a, below), delta, v);
      WalkSumAppend(p, size, [[a]] + Prepend(a, below), WalksVia(p.net, arcs[1..], k), delta, v);
    }
  }

  lemma SingleArcTerm(p: Params, size: bool, a: Arc, delta: real, v: NodeIdx)
    ensures var m := Message(p, a.weight, delta);
      WalkSum(p, size, [[a]], delta, v)
      == if Abs(m) >= p.threshold && a.target == v then Val(size, m) else 0.0
  {
    var m := Message(p, a.weight, delta);
    assert [a][1..] == [];
    assert WalkMessage(p, [a], delta) == WalkMessage(p, [], m) == m;
    assert EveryMessagePasses(p, [a], delta) <==> Abs(m) >= p.threshold;
    assert WalkSum(p, size, [[a]], delta, v)
        == WalkTerm(p, size, [a], delta, v) + WalkSum(p, size, [], delta, v);
  }

  // ---------- no order matters ----------

  /** The same arcs at every node, in any order. */
  ghost predicate SameArcs(net1: Net, net2: Net) {
    net1.Keys == net2.Keys && forall n :: n in net1 ==> multiset(net1[n]) == multiset(net2[n])
  }

  lemma {:induction false} InflowOrder(p1: Params, p2: Params, size: bool, n: NodeIdx, delta: real, depth: nat,
                                       v: NodeIdx)
    requires Closed(p1.net) && Closed(p2.net) && SameArcs(p1.net, p2.net) && p2 == p1.(net := p2.net)
    requires n in p1.net
    ensures Inflow(p1, size, n, delta, depth, v) == Inflow(p2, size, n, delta, depth, v)
    decreases Left(p1, depth), 1, 0
  {
    if depth < p1.maxDepth {
      InflowViaOrder(p1, p2, size, p1.net[n], p2.net[n], delta, depth, v);
    }
  }

  lemma {:induction false} InflowArcOrder(p1: Params, p2: Params, size: bool, a: Arc, delta: real, depth: nat,
                                          v: NodeIdx)
    requires Closed(p1.net) && Closed(p2.net) && SameArcs(p1.net, p2.net) && p2 == p1.(net := p2.net)
    requires a.target in p1.net && depth < p1.maxDepth
    ensures InflowArc(p1, size, a, delta, depth, v) == InflowArc(p2, size, a, delta, depth, v)
    decreases Left(p1, depth), 0, 0
  {
    var m := Message(p1, a.weight, delta);
    assert Message(p2, a.weight, delta) == m;
    InflowOrder(p1, p2, size, a.target, m, depth + 1, v);
  }

  lemma {:induction false} InflowViaOrder(p1: Params, p2: Params, size: bool, arcs1: seq<Arc>, arcs2: seq<Arc>,
                                          delta: real, depth: nat, v: NodeIdx)
    requires Closed(p1.net) && Closed(p2.net) && SameArcs(p1.net, p2.net) && p2 == p1.(net := p2.net)
    requires ArcsWithin(p1.net, arcs1) && ArcsWithin(p2.net, arcs2) && depth < p1.maxDepth
    requires multiset(arcs1) == multiset(arcs2)
    ensures InflowVia(p1, size, arcs1, delta, depth, v) == InflowVia(p2, size, arcs2, delta, depth, v)
    decreases Left(p1, depth), 0, |arcs1|
  {
    if arcs1 == [] {
      assert |multiset(arcs2)| == 0;
    } else {
      var a := arcs1[0];
      var k := MatchFirst(arcs1, arcs2);
      InflowArcOrder(p1, p2, size, a, delta, depth, v);
      InflowViaOrder(p1, p2, size, arcs1[1..], Without(arcs2, k), delta, depth, v);
      InflowViaTakeOut(p2, size, arcs2, k, delta, depth, v);
    }
  }

  lemma {:induction false} InflowViaTakeOut(p: Params, size: bool, arcs: seq<Arc>, k: nat, delta: real, depth: nat,
                                            v: NodeIdx)
    requires Closed(p.net) && ArcsWithin(p.net, arcs) && depth < p.maxDepth && k < |arcs|
    ensures ArcsWithin(p.net, Without(arcs, k))
    ensures InflowVia(p, size, arcs, delta, depth, v)
         == InflowArc(p, size, arcs[k], delta, depth, v)
          + InflowVia(p, size, Without(arcs, k), delta, depth, v)
    decreases k
  {
    if k == 0 {
      assert Without(arcs, 0) == arcs[1..];
    } else {
      InflowViaTakeOut(p, size, arcs[1..], k - 1, delta, depth, v);
      assert Without(arcs, k)[1..] == Without(arcs[1..], k - 1);
    }
  }

  lemma {:induction false} QueueInflowOrder(p1: Params, p2: Params, size: bool, q1: seq<Task>, q2: seq<Task>,
                                            v: NodeIdx)
    requires Closed(p1.net) && Closed(p2.net) && SameArcs(p1.net, p2.net) && p2 == p1.(net := p2.net)
    requires forall k :: 0 <= k < |q1| ==> q1[k].node in p1.net
    requires forall k :: 0 <= k < |q2| ==> q2[k].node in p2.net
    requires multiset(q1) == multiset(q2)
    ensures QueueInflow(p1, size, q1, v) == QueueInflow(p2, size, q2, v)
    decreases |q1|
  {
    if q1 == [] {
      assert |multiset(q2)| == 0;
    } else {
      var t := q1[0];
      var k := MatchFirst(q1, q2);
      InflowOrder(p1, p2, size, t.node, t.delta, t.depth, v);
      QueueInflowOrder(p1, p2, size, q1[1..], Without(q2, k), v);
      QueueInflowTakeOut(p2, size, q2, k, v);
    }
  }

  lemma {:induction false} QueueInflowTakeOut(p: Params, size: bool, q: seq<Task>, k: nat, v: NodeIdx)
    requires Closed(p.net) && k < |q| && forall i :: 0 <= i < |q| ==> q[i].node in p.net
    ensures QueueInflow(p, size, q, v)
         == Inflow(p, size, q[k].node, q[k].delta, q[k].depth, v)
          + QueueInflow(p, size, Without(q, k), v)
    decreases k
  {
    if k == 0 {
      assert Without(q, 0) == q[1..];
    } else {
      QueueInflowTakeOut(p, size, q[1..], k - 1, v);
      assert Without(q, k)[1..] == Without(q[1..], k - 1);
    }
  }

  lemma ClampFreeOrder(p1: Params, s1: Bfs, p2: Params, s2: Bfs)
    requires Ready(p1, s1) && Ready(p2, s2)
    requires SameArcs(p1.net, p2.net) && p2 == p1.(net := p2.net)
    requires s1.implied == s2.implied && multiset(s1.queue) == multiset(s2.queue)
    requires ClampFree(p1, s1)
    ensures ClampFree(p2, s2)
  {
    forall v | v in p2.net ensures HasRoom(s2.implied[v], QueueInflow(p2, true, s2.queue, v)) {
      QueueInflowOrder(p1, p2, true, s1.queue, s2.queue, v);
      assert HasRoom(s1.implied[v], QueueInflow(p1, true, s1.queue, v));
    }
  }

  lemma DrainOrderAt(p1: Params, s1: Bfs, p2: Params, s2: Bfs, v: NodeIdx)
    requires Ready(p1, s1) && Ready(p2, s2) && v in p1.net
    requires SameArcs(p1.net, p2.net) && p2 == p1.(net := p2.net)
    requires s1.implied == s2.implied && multiset(s1.queue) == multiset(s2.queue)
    requires ClampFree(p1, s1)
    ensures Drain(p1, s1).implied[v] == Drain(p2, s2).implied[v]
  {
    hide Drain;
    ClampFreeOrder(p1, s1, p2, s2);
    QueueInflowOrder(p1, p2, false, s1.queue, s2.queue, v);
    DrainSums(p1, s1);
    DrainSums(p2, s2);
  }

  /** When no clamp can fire, neither the order of the queue nor the order of the edges changes any value. */
  lemma DrainOrderIrrelevant(p1: Params, s1: Bfs, p2: Params, s2: Bfs)
    requires Ready(p1, s1) && Ready(p2, s2)
    requires SameArcs(p1.net, p2.net) && p2 == p1.(net := p2.net)
    requires s1.implied == s2.implied && multiset(s1.queue) == multiset(s2.queue)
    requires ClampFree(p1, s1)
    ensures Drain(p1, s1).implied == Drain(p2, s2).implied
  {
    hide Drain;
    var r1, r2 := Drain(p1, s1).implied, Drain(p2, s2).implied;
    assert r1.Keys == p1.net.Keys == p2.net.Keys == r2.Keys;
    forall v | v in r1 ensures r1[v] == r2[v] {
      DrainOrderAt(p1, s1, p2, s2, v);
    }
  }

  // ---------- the whole pass ----------

  /** Over all seeds, the sum over the walks of 1..maxDepth arcs from the seed. */
  ghost function SeedWalkSum(p: Params, size: bool, seeds: seq<Task>, v: NodeIdx): real
    requires Closed(p.net) && forall k :: 0 <= k < |seeds| ==> seeds[k].node in p.net
  {
    if seeds == [] then 0.0 else
      WalkSum(p, size, Walks(p.net, seeds[0].node, p.maxDepth), seeds[0].delta, v)
      + SeedWalkSum(p, size, seeds[1..], v)
  }

  lemma {:induction false} SeedInflow(p: Params, size: bool, seeds: seq<Task>, v: NodeIdx)
    requires Closed(p.net)
    requires forall k :: 0 <= k < |seeds| ==> seeds[k].node in p.net && seeds[k].depth == 0
    ensures QueueInflow(p, size, seeds, v) == SeedWalkSum(p, size, seeds, v)
  {
    if seeds != [] {
      InflowIsWalkSum(p, size, seeds[0].node, seeds[0].delta, 0, v);
      SeedInflow(p, size, seeds[1..], v);
    }
  }

  /** The guard of the main theorem, in terms of walks only. */
  ghost predicate RoomForAll(p: Params, start: map<NodeIdx, real>, seeds: seq<Task>)
    requires Closed(p.net) && start.Keys == p.net.Keys
    requires forall k :: 0 <= k < |seeds| ==> seeds[k].node in p.net
  {
    forall v :: v in p.net ==> HasRoom(start[v], SeedWalkSum(p, true, seeds, v))
  }

  /** Main theorem: a pass in which no clamp can fire adds to each node its sum over walks. */
  lemma PassIsWalkSum(p: Params, start: map<NodeIdx, real>, seeds: seq<Task>)
    requires Closed(p.net) && start.Keys == p.net.Keys
    requires forall k :: 0 <= k < |seeds| ==> seeds[k].node in p.net && seeds[k].depth == 0
    requires RoomForAll(p, start, seeds)
    ensures Ready(p, Start(start, seeds)) && ClampFree(p, Start(start, seeds))
    ensures forall v :: v in p.net ==>
      Drain(p, Start(start, seeds)).implied[v] == start[v] + SeedWalkSum(p, false, seeds, v)
  {
    hide Drain;
    var s := Start(start, seeds);
    forall v | v in p.net
      ensures HasRoom(s.implied[v], QueueInflow(p, true, s.queue, v))
      ensures QueueInflow(p, false, s.queue, v) == SeedWalkSum(p, false, seeds, v)
    {
      SeedInflow(p, true, seeds, v);
      SeedInflow(p, false, seeds, v);
      assert HasRoom(start[v], SeedWalkSum(p, true, seeds, v));
    }
    DrainSums(p, s);
  }

  // ---------- where a clamp makes the order matter ----------

  /** Two nodes push a third up and down by the same amount. */
  const TUG: Params := Params(map[0 := [Arc(2, 1.0)], 1 := [Arc(2, -1.0)], 2 := []], 1.0, 0.1, 1)

  const TUG_START: map<NodeIdx, real> := map[0 := 0.5, 1 := 0.5, 2 := 1.0]

  /** A first task with one edge costs one message; its children are at the depth limit. */
  lemma OneMessage(s: Bfs, t: Task, w: real)
    requires Ready(TUG, s) && s.queue != [] && s.queue[0] == t && t.depth == 0
    requires TUG.net[t.node] == [Arc(2, w)]
    ensures var popped := s.(queue := s.queue[1..], iterations := s.iterations + 1);
      && Ready(TUG, DeliverArc(TUG, popped, Arc(2, w), t.delta, 0))
      && Drain(TUG, s) == Drain(TUG, DeliverArc(TUG, popped, Arc(2, w), t.delta, 0))
  {
    hide DeliverArc;
    var popped := s.(queue := s.queue[1..], iterations := s.iterations + 1);
    var next := DeliverArc(TUG, popped, Arc(2, w), t.delta, 0);
    assert [Arc(2, w)][1..] == [];
    assert Deliver(TUG, popped, [Arc(2, w)], t.delta, 0) == Deliver(TUG, next, [], t.delta, 0);
    assert Step(TUG, s) == next;
  }

  /** Tasks at the depth limit are dropped without effect on the values. */
  lemma {:induction false} OnlyDropped(s: Bfs)
    requires Ready(TUG, s) && forall k :: 0 <= k < |s.queue| ==> s.queue[k].depth >= 1
    ensures Drain(TUG, s).implied == s.implied && Drain(TUG, s).touched == s.touched
    decreases |s.queue|
  {
    if s.queue != [] {
      OnlyDropped(Step(TUG, s));
    }
  }

  lemma UpThenDown()
    ensures Ready(TUG, Start(TUG_START, [Task(0, 0.5, 0), Task(1, 0.5, 0)]))
    ensures Drain(TUG, Start(TUG_START, [Task(0, 0.5, 0), Task(1, 0.5, 0)])).implied[2] == 0.5
  {
    hide Drain;
    var up, down := Task(0, 0.5, 0), Task(1, 0.5, 0);
    var s := Start(TUG_START, [up, down]);
    OneMessage(s, up, 1.0);
    var s1 := Bfs(TUG_START, [down], map[], 1, false);
    assert s.queue[1..] == [down] && s1.queue[1..] == [];
    assert DeliverArc(TUG, s1, Arc(2, 1.0), 0.5, 0) == s1;
    OneMessage(s1, down, -1.0);
    var s2 := Bfs(TUG_START[2 := 0.5], [Task(2, -0.5, 1)], map[2 := (1.0, 0.5)], 2, false);
    assert DeliverArc(TUG, Bfs(TUG_START, [], map[], 2, false), Arc(2, -1.0), 0.5, 0) == s2;
    OnlyDropped(s2);
  }

  lemma DownThenUp()
    ensures Ready(TUG, Start(TUG_START, [Task(1, 0.5, 0), Task(0, 0.5, 0)]))
    ensures Drain(TUG, Start(TUG_START, [Task(1, 0.5, 0), Task(0, 0.5, 0)])).implied[2] == 1.0
    ensures Drain(TUG, Start(TUG_START, [Task(1, 0.5, 0), Task(0, 0.5, 0)])).touched == map[2 := (1.0, 1.0)]
  {
    hide Drain;
    var up, down := Task(0, 0.5, 0), Task(1, 0.5, 0);
    var s := Start(TUG_START, [down, up]);
    OneMessage(s, down, -1.0);
    var s1 := Bfs(TUG_START[2 := 0.5], [up, Task(2, -0.5, 1)], map[2 := (1.0, 0.5)], 1, false);
    assert s.queue[1..] == [up] && s1.queue[1..] == [Task(2, -0.5, 1)];
    assert DeliverArc(TUG, Bfs(TUG_START, [up], map[], 1, false), Arc(2, -1.0), 0.5, 0) == s1;
    OneMessage(s1, up, 1.0);
    var s2 := Bfs(TUG_START, [Task(2, -0.5, 1), Task(2, 0.5, 1)], map[2 := (1.0, 1.0)], 2, false);
    assert TUG_START[2 := 0.5][2 := 1.0] == TUG_START;
    assert DeliverArc(TUG, Bfs(TUG_START[2 := 0.5], [Task(2, -0.5, 1)], map[2 := (1.0, 0.5)], 2, false),
                      Arc(2, 1.0), 0.5, 0) == s2;
    OnlyDropped(s2);
  }
}
