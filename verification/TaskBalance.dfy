/** Every task carries exactly the change its message made, clamped or not: what a market gains in a pass is
    the sum over the tasks the loop pops for it. */
module TaskBalance {
  import opened Sums
  import opened Propagation

  ghost function DeltasAt(q: seq<Task>, v: NodeIdx): real {
    if q == [] then 0.0 else (if q[0].node == v then q[0].delta else 0.0) + DeltasAt(q[1..], v)
  }

  lemma {:induction false} DeltasAppend(q: seq<Task>, t: Task, v: NodeIdx)
    ensures DeltasAt(q + [t], v) == DeltasAt(q, v) + if t.node == v then t.delta else 0.0
  {
    if q == [] {
      assert q + [t] == [t];
      assert DeltasAt([t][1..], v) == 0.0;
    } else {
      assert (q + [t])[1..] == q[1..] + [t];
      DeltasAppend(q[1..], t, v);
    }
  }

  /** The tasks the loop pops, in order, dropped ones included. */
  ghost function Popped(p: Params, s: Bfs): seq<Task>
    requires Ready(p, s)
    decreases Load(p, s.queue, 1)
  {
    if s.queue == [] then [] else
      StepLoad(p, s, 1);
      [s.queue[0]] + Popped(p, Step(p, s))
  }

  lemma DeliverArcBalance(p: Params, s: Bfs, arc: Arc, delta: real, depth: nat, v: NodeIdx)
    requires Ready(p, s) && arc.target in p.net && v in p.net
    ensures var r := DeliverArc(p, s, arc, delta, depth);
      r.implied[v] - s.implied[v] == DeltasAt(r.queue, v) - DeltasAt(s.queue, v)
  {
    var before := s.implied[arc.target];
    var after := Clamp(before + Message(p, arc.weight, delta), 0.0, 1.0);
    DeltasAppend(s.queue, Task(arc.target, after - before, depth + 1), v);
  }

  lemma {:induction false} DeliverBalance(p: Params, s: Bfs, arcs: seq<Arc>, delta: real, depth: nat, v: NodeIdx)
    requires Ready(p, s) && ArcsWithin(p.net, arcs) && v in p.net
    ensures var r := Deliver(p, s, arcs, delta, depth);
      r.implied[v] - s.implied[v] == DeltasAt(r.queue, v) - DeltasAt(s.queue, v)
    decreases |arcs|
  {
    if arcs != [] {
      hide DeliverArc;
      DeliverArcBalance(p, s, arcs[0], delta, depth, v);
      DeliverBalance(p, DeliverArc(p, s, arcs[0], delta, depth), arcs[1..], delta, depth, v);
    }
  }

  /** One turn: the tasks it queues account for every change it makes. */
  lemma StepBalance(p: Params, s: Bfs, v: NodeIdx)
    requires Ready(p, s) && s.queue != [] && v in p.net
    ensures Step(p, s).implied[v] - s.implied[v] == DeltasAt(Step(p, s).queue, v) - DeltasAt(s.queue[1..], v)
  {
    var t := s.queue[0];
    if t.depth < p.maxDepth {
      StepInside(p, s);
      hide Deliver, Step, DeltasAt;
      DeliverBalance(p, s.(queue := s.queue[1..], iterations := s.iterations + 1), p.net[t.node], t.delta, t.depth, v);
    }
  }

  /** Over the whole loop a node gains the deltas of all tasks popped for it, less those it was queued with. */
  lemma {:induction false} DrainBalance(p: Params, s: Bfs, v: NodeIdx)
    requires Ready(p, s) && v in p.net
    ensures Drain(p, s).implied[v] == s.implied[v] + DeltasAt(Popped(p, s), v) - DeltasAt(s.queue, v)
    decreases Load(p, s.queue, 1)
  {
    if s.queue != [] {
      hide Step, Load;
      StepBalance(p, s, v);
      StepLoad(p, s, 1);
      DrainBalance(p, Step(p, s), v);
      assert Popped(p, s)[1..] == Popped(p, Step(p, s));
    }
  }
}
