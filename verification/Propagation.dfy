/** Depth-limited, damped, thresholded breadth-first message passing.
    `Drain` gives the exact meaning of the queue loop, clamps included; the lemmas say what it computes. */
module Propagation {
  import opened Sums

  type NodeIdx = nat

  /** One outgoing edge with its effective weight at the time of the pass. */
  datatype Arc = Arc(target: NodeIdx, weight: real)

  type Net = map<NodeIdx, seq<Arc>>

  datatype Params = Params(net: Net, damping: real, threshold: real, maxDepth: nat)

  datatype Task = Task(node: NodeIdx, delta: real, depth: nat)

  /** The loop state: node values, queue, first/last value of touched nodes, counters. */
  datatype Bfs = Bfs(
    implied: map<NodeIdx, real>,
    queue: seq<Task>,
    touched: map<NodeIdx, (real, real)>,
    iterations: nat,
    depthLimited: bool)

  ghost predicate Closed(net: Net) {
    forall n :: n in net ==> ArcsWithin(net, net[n])
  }

  ghost predicate ArcsWithin(net: Net, arcs: seq<Arc>) {
    forall k :: 0 <= k < |arcs| ==> arcs[k].target in net
  }

  ghost predicate Ready(p: Params, s: Bfs) {
    && Closed(p.net)
    && s.implied.Keys == p.net.Keys
    && forall k :: 0 <= k < |s.queue| ==> s.queue[k].node in p.net
  }

  /** The loop state on entry. */
  function Start(implied: map<NodeIdx, real>, seeds: seq<Task>): Bfs {
    Bfs(implied, seeds, map[], 0, false)
  }

  // ---------- one message, one task, the whole queue ----------

  function Message(p: Params, weight: real, delta: real): real {
    Damped(weight, delta, p.damping)
  }

  function Damped(weight: real, delta: real, damping: real): real {
    weight * delta * damping
  }

  /** Deliver one message along `arc`; `depth` is the depth of the sending task. */
  function DeliverArc(p: Params, s: Bfs, arc: Arc, delta: real, depth: nat): (r: Bfs)
    requires arc.target in s.implied
    ensures Ready(p, s) ==> Ready(p, r)
  {
    var change := Message(p, arc.weight, delta);
    if Abs(change) < p.threshold then s else
      var before := s.implied[arc.target];
      var after := Clamp(before + change, 0.0, 1.0);
      if Abs(after - before) < p.threshold then s else
        s.(implied := s.implied[arc.target := after],
           touched := s.touched[arc.target :=
             if arc.target in s.touched then (s.touched[arc.target].0, after) else (before, after)],
           queue := s.queue + [Task(arc.target, after - before, depth + 1)])
  }

  function Deliver(p: Params, s: Bfs, arcs: seq<Arc>, delta: real, depth: nat): (r: Bfs)
    requires Ready(p, s) && ArcsWithin(p.net, arcs)
    ensures Ready(p, r)
    decreases |arcs|
  {
    if arcs == [] then s else Deliver(p, DeliverArc(p, s, arcs[0], delta, depth), arcs[1..], delta, depth)
  }

  /** One turn of the loop: pop a task, drop it at the depth limit, otherwise deliver along its arcs. */
  function Step(p: Params, s: Bfs): (r: Bfs)
    requires Ready(p, s) && s.queue != []
    ensures Ready(p, r)
  {
    var t := s.queue[0];
    var popped := s.(queue := s.queue[1..]);
    if t.depth >= p.maxDepth then popped.(depthLimited := true)
    else Deliver(p, popped.(iterations := s.iterations + 1), p.net[t.node], t.delta, t.depth)
  }

  /** Run the loop until the queue is empty. */
  ghost function Drain(p: Params, s: Bfs): (r: Bfs)
    requires Ready(p, s)
    ensures Ready(p, r) && r.queue == []
    decreases Load(p, s.queue, 1)
  {
    if s.queue == [] then s else
      StepLoad(p, s, 1);
      Drain(p, Step(p, s))
  }

  // ---------- termination: the size of the remaining message tree ----------

  /** Largest out-degree of the net. */
  ghost function MaxDegree(net: Net): nat
  {
    if net == map[] then 0 else
      var n :| n in net;
      var rest := MaxDegree(net - {n});
      if |net[n]| > rest then |net[n]| else rest
  }

  lemma {:induction false} MaxDegreeBounds(net: Net)
    ensures forall n :: n in net ==> |net[n]| <= MaxDegree(net)
    ensures net != map[] ==> exists n :: n in net && |net[n]| == MaxDegree(net)
    decreases |net|
  {
    if net != map[] {
      var c :| c in net && MaxDegree(net) ==
        (if |net[c]| > MaxDegree(net - {c}) then |net[c]| else MaxDegree(net - {c}));
      MaxDegreeBounds(net - {c});
      forall n | n in net ensures |net[n]| <= MaxDegree(net) {
        if n != c { assert n in net - {c}; }
      }
      if |net[c]| > MaxDegree(net - {c}) || net - {c} == map[] {
        assert |net[c]| == MaxDegree(net);
      } else {
        var n :| n in net - {c} && |(net - {c})[n]| == MaxDegree(net - {c});
        assert |net[n]| == MaxDegree(net);
      }
    }
  }

  /** 1 + b + ... + b^(k-1): nodes of a full b-ary tree of height k. */
  ghost function Tree(b: nat, k: nat): nat {
    if k == 0 then 0 else 1 + b * Tree(b, k - 1)
  }

  function Left(p: Params, depth: nat): nat {
    if depth >= p.maxDepth then 0 else p.maxDepth - depth
  }

  /** Summed over the queue: the size of the full message tree below each task, `extra` levels taller.
      With `extra` 1 it counts every task that may still be popped, with 0 those that may still be processed. */
  ghost function Load(p: Params, q: seq<Task>, extra: nat): nat {
    if q == [] then 0 else Tree(MaxDegree(p.net), Left(p, q[0].depth) + extra) + Load(p, q[1..], extra)
  }

  lemma {:induction false} LoadSnoc(p: Params, q: seq<Task>, t: Task, extra: nat)
    ensures Load(p, q + [t], extra) == Load(p, q, extra) + Tree(MaxDegree(p.net), Left(p, t.depth) + extra)
  {
    if q == [] {
      assert q + [t] == [t];
      assert Load(p, [t], extra) == Tree(MaxDegree(p.net), Left(p, t.depth) + extra) + Load(p, [], extra);
    } else {
      assert (q + [t])[1..] == q[1..] + [t];
      LoadSnoc(p, q[1..], t, extra);
    }
  }

  lemma DeliverArcLoad(p: Params, s: Bfs, arc: Arc, delta: real, depth: nat, extra: nat)
    requires arc.target in s.implied
    ensures var s' := DeliverArc(p, s, arc, delta, depth);
      && Load(p, s'.queue, extra) <= Load(p, s.queue, extra) + Tree(MaxDegree(p.net), Left(p, depth + 1) + extra)
      && s'.iterations == s.iterations && s'.depthLimited == s.depthLimited
  {
    hide Load, Tree, MaxDegree, Message;
    var s' := DeliverArc(p, s, arc, delta, depth);
    if s' != s {
      LoadSnoc(p, s.queue, s'.queue[|s.queue|], extra);
    }
  }

  lemma {:induction false} DeliverLoad(p: Params, s: Bfs, arcs: seq<Arc>, delta: real, depth: nat, extra: nat)
    requires Ready(p, s) && ArcsWithin(p.net, arcs)
    ensures Load(p, Deliver(p, s, arcs, delta, depth).queue, extra)
         <= Load(p, s.queue, extra) + |arcs| * Tree(MaxDegree(p.net), Left(p, depth + 1) + extra)
    ensures Deliver(p, s, arcs, delta, depth).iterations == s.iterations
    ensures Deliver(p, s, arcs, delta, depth).depthLimited == s.depthLimited
    decreases |arcs|
  {
    if arcs != [] {
      DeliverArcLoad(p, s, arcs[0], delta, depth, extra);
      hide DeliverArc, Load, Tree, MaxDegree;
      DeliverLoad(p, DeliverArc(p, s, arcs[0], delta, depth), arcs[1..], delta, depth, extra);
      Spread(|arcs| - 1, Tree(MaxDegree(p.net), Left(p, depth + 1) + extra));
    }
  }

  lemma Spread(n: nat, x: int)
    ensures (n + 1) * x == n * x + x
  {
  }

  lemma NatTimesMonotone(a: nat, b: nat, x: nat)
    requires a <= b
    ensures a * x <= b * x
  {
  }

  lemma HeadLoad(p: Params, q: seq<Task>, extra: nat)
    requires q != [] && q[0].depth < p.maxDepth
    ensures Load(p, q, extra)
         == 1 + MaxDegree(p.net) * Tree(MaxDegree(p.net), Left(p, q[0].depth + 1) + extra) + Load(p, q[1..], extra)
  {
    hide MaxDegree;
    assert Left(p, q[0].depth) + extra == Left(p, q[0].depth + 1) + extra + 1;
  }

  /** A task's share of the load covers what its arcs can add. */
  lemma HeadCovers(p: Params, q: seq<Task>, extra: nat)
    requires q != [] && q[0].depth < p.maxDepth && q[0].node in p.net
    ensures Load(p, q[1..], extra)
            + |p.net[q[0].node]| * Tree(MaxDegree(p.net), Left(p, q[0].depth + 1) + extra) < Load(p, q, extra)
  {
    HeadLoad(p, q, extra);
    MaxDegreeBounds(p.net);
    hide MaxDegree, Tree, Load, Left;
    NatTimesMonotone(|p.net[q[0].node]|, MaxDegree(p.net), Tree(MaxDegree(p.net), Left(p, q[0].depth + 1) + extra));
  }

  lemma StepInside(p: Params, s: Bfs)
    requires Ready(p, s) && s.queue != [] && s.queue[0].depth < p.maxDepth
    ensures var t := s.queue[0];
      var popped := s.(queue := s.queue[1..], iterations := s.iterations + 1);
      && Ready(p, popped) && t.node in p.net && ArcsWithin(p.net, p.net[t.node])
      && Step(p, s) == Deliver(p, popped, p.net[t.node], t.delta, t.depth)
  {
    hide Deliver;
  }

  lemma StepLoadInside(p: Params, s: Bfs, extra: nat)
    requires Ready(p, s) && s.queue != [] && s.queue[0].depth < p.maxDepth
    ensures Load(p, Step(p, s).queue, extra) < Load(p, s.queue, extra)
    ensures Step(p, s).iterations == s.iterations + 1
  {
    StepInside(p, s);
    var t := s.queue[0];
    hide *;
    HeadCovers(p, s.queue, extra);
    DeliverLoad(p, s.(queue := s.queue[1..], iterations := s.iterations + 1), p.net[t.node], t.delta, t.depth, extra);
  }

  lemma StepLoad(p: Params, s: Bfs, extra: nat)
    requires Ready(p, s) && s.queue != []
    ensures s.queue[0].depth < p.maxDepth
        ==> (Load(p, Step(p, s).queue, extra) < Load(p, s.queue, extra)
             && Step(p, s).iterations == s.iterations + 1)
    ensures s.queue[0].depth >= p.maxDepth
        ==> (Load(p, Step(p, s).queue, extra) == Load(p, s.queue, extra) - Tree(MaxDegree(p.net), extra)
             && Step(p, s).iterations == s.iterations)
  {
    hide Deliver, MaxDegree, Tree;
    if s.queue[0].depth < p.maxDepth {
      hide Step, Load;
      StepLoadInside(p, s, extra);
    }
  }

  /** The pass processes at most one full b-ary tree of tasks per queued task, b the largest out-degree;
      cycles do not matter. */
  lemma {:induction false} IterationBound(p: Params, s: Bfs)
    requires Ready(p, s)
    ensures Drain(p, s).iterations <= s.iterations + Load(p, s.queue, 0)
    decreases Load(p, s.queue, 1)
  {
    if s.queue != [] {
      StepLoad(p, s, 0);
      StepLoad(p, s, 1);
      IterationBound(p, Step(p, s));
    }
  }

  /** For seeds (all at depth 0) the bound is |seeds| * (1 + b + ... + b^(maxDepth-1)). */
  lemma {:induction false} SeedLoad(p: Params, q: seq<Task>)
    requires forall k :: 0 <= k < |q| ==> q[k].depth == 0
    ensures Load(p, q, 0) == |q| * Tree(MaxDegree(p.net), p.maxDepth)
  {
    if q != [] {
      SeedLoad(p, q[1..]);
      Spread(|q| - 1, Tree(MaxDegree(p.net), p.maxDepth));
    }
  }

  // ---------- record, range and reach ----------

  /** `touched` pairs the value before the pass with the current one, for exactly the nodes written to. */
  ghost predicate Recorded(start: map<NodeIdx, real>, s: Bfs) {
    && s.implied.Keys == start.Keys
    && s.touched.Keys <= start.Keys
    && forall v :: v in start ==>
        if v in s.touched then s.touched[v] == (start[v], s.implied[v]) else s.implied[v] == start[v]
  }

  ghost predicate InUnit(m: map<NodeIdx, real>) {
    forall v :: v in m ==> 0.0 <= m[v] <= 1.0
  }

  lemma {:induction false} DeliverRecords(p: Params, s: Bfs, arcs: seq<Arc>, delta: real, depth: nat,
                                          start: map<NodeIdx, real>)
    requires Ready(p, s) && ArcsWithin(p.net, arcs) && Recorded(start, s)
    ensures Recorded(start, Deliver(p, s, arcs, delta, depth))
    ensures InUnit(s.implied) ==> InUnit(Deliver(p, s, arcs, delta, depth).implied)
    decreases |arcs|
  {
    if arcs != [] {
      DeliverRecords(p, DeliverArc(p, s, arcs[0], delta, depth), arcs[1..], delta, depth, start);
    }
  }

  lemma StepRecords(p: Params, s: Bfs, start: map<NodeIdx, real>)
    requires Ready(p, s) && Recorded(start, s) && s.queue != []
    ensures Recorded(start, Step(p, s))
    ensures InUnit(s.implied) ==> InUnit(Step(p, s).implied)
  {
    hide Deliver, InUnit;
    var t := s.queue[0];
    if t.depth < p.maxDepth {
      DeliverRecords(p, s.(queue := s.queue[1..], iterations := s.iterations + 1),
                     p.net[t.node], t.delta, t.depth, start);
    }
  }

  /** The record is exact at the end of the pass, and values never leave [0, 1]. */
  lemma {:induction false} DrainRecords(p: Params, s: Bfs, start: map<NodeIdx, real>)
    requires Ready(p, s) && Recorded(start, s)
    ensures Recorded(start, Drain(p, s))
    ensures InUnit(s.implied) ==> InUnit(Drain(p, s).implied)
    decreases Load(p, s.queue, 1)
  {
    hide Step, Recorded, InUnit, Load;
    if s.queue != [] {
      StepRecords(p, s, start);
      StepLoad(p, s, 1);
      DrainRecords(p, Step(p, s), start);
    }
  }

  ghost predicate IsWalk(net: Net, n: NodeIdx, w: seq<Arc>)
    decreases |w|
  {
    w == [] || (n in net && w[0] in net[n] && IsWalk(net, w[0].target, w[1..]))
  }

  /** `v` is the end of a walk of 1 to `k` arcs from `n`. */
  ghost predicate Reaches(net: Net, n: NodeIdx, k: nat, v: NodeIdx) {
    exists w: seq<Arc> :: IsWalk(net, n, w) && 1 <= |w| <= k && w[|w| - 1].target == v
  }

  lemma ReachesVia(net: Net, n: NodeIdx, a: Arc, k: nat, v: NodeIdx)
    requires n in net && a in net[n] && k > 0
    ensures a.target == v ==> Reaches(net, n, k, v)
    ensures Reaches(net, a.target, k - 1, v) ==> Reaches(net, n, k, v)
  {
    assert IsWalk(net, a.target, []);
    assert IsWalk(net, n, [a]);
    if Reaches(net, a.target, k - 1, v) {
      var w: seq<Arc> :| IsWalk(net, a.target, w) && 1 <= |w| <= k - 1 && w[|w| - 1].target == v;
      assert ([a] + w)[1..] == w;
      assert IsWalk(net, n, [a] + w);
    }
  }

  ghost predicate OutOfReach(p: Params, q: seq<Task>, v: NodeIdx) {
    forall k :: 0 <= k < |q| ==> !Reaches(p.net, q[k].node, Left(p, q[k].depth), v)
  }

  lemma {:induction false} DeliverFrame(p: Params, s: Bfs, arcs: seq<Arc>, delta: real, depth: nat,
                                        n: NodeIdx, v: NodeIdx)
    requires Ready(p, s) && ArcsWithin(p.net, arcs)
    requires n in p.net && depth < p.maxDepth && v in p.net
    requires forall k :: 0 <= k < |arcs| ==> arcs[k] in p.net[n]
    requires OutOfReach(p, s.queue, v) && !Reaches(p.net, n, Left(p, depth), v)
    ensures OutOfReach(p, Deliver(p, s, arcs, delta, depth).queue, v)
    ensures Deliver(p, s, arcs, delta, depth).implied[v] == s.implied[v]
    ensures v in Deliver(p, s, arcs, delta, depth).touched <==> v in s.touched
    decreases |arcs|
  {
    if arcs != [] {
      ReachesVia(p.net, n, arcs[0], Left(p, depth), v);
      DeliverFrame(p, DeliverArc(p, s, arcs[0], delta, depth), arcs[1..], delta, depth, n, v);
    }
  }

  lemma StepFrame(p: Params, s: Bfs, v: NodeIdx)
    requires Ready(p, s) && v in p.net && OutOfReach(p, s.queue, v) && s.queue != []
    ensures OutOfReach(p, Step(p, s).queue, v)
    ensures Step(p, s).implied[v] == s.implied[v]
    ensures v in Step(p, s).touched <==> v in s.touched
  {
    hide Deliver, Reaches;
    var t := s.queue[0];
    var popped := s.(queue := s.queue[1..], iterations := s.iterations + 1);
    assert OutOfReach(p, popped.queue, v);
    if t.depth < p.maxDepth {
      DeliverFrame(p, popped, p.net[t.node], t.delta, t.depth, t.node, v);
    }
  }

  /** Only nodes within the remaining depth of some queued task can change or be recorded. */
  lemma {:induction false} DrainFrame(p: Params, s: Bfs, v: NodeIdx)
    requires Ready(p, s) && v in p.net && OutOfReach(p, s.queue, v)
    ensures Drain(p, s).implied[v] == s.implied[v]
    ensures v in Drain(p, s).touched <==> v in s.touched
    decreases Load(p, s.queue, 1)
  {
    hide Step, OutOfReach, Load;
    if s.queue != [] {
      StepFrame(p, s, v);
      StepLoad(p, s, 1);
      DrainFrame(p, Step(p, s), v);
    }
  }

  // ---------- attenuation and convergence ----------

  ghost function Pow(x: real, n: nat): real {
    if n == 0 then 1.0 else x * Pow(x, n - 1)
  }

  ghost predicate WeightsBounded(net: Net) {
    forall n, k :: n in net && 0 <= k < |net[n]| ==> Abs(net[n][k].weight) <= 1.0
  }

  /** |damping|^depth * bound */
  ghost function Faded(p: Params, depth: nat, bound: real): real {
    if depth == 0 then bound else Faded(p, depth - 1, bound) * Abs(p.damping)
  }

  lemma {:induction false} FadedIsPower(p: Params, depth: nat, bound: real)
    ensures Faded(p, depth, bound) == Pow(Abs(p.damping), depth) * bound
  {
    if depth > 0 {
      FadedIsPower(p, depth - 1, bound);
      PowStep(Abs(p.damping), depth - 1, bound);
    }
  }

  lemma PowStep(d: real, n: nat, bound: real)
    ensures Pow(d, n) * bound * d == Pow(d, n + 1) * bound
  {
  }

  ghost predicate TaskAttenuated(p: Params, t: Task, bound: real) {
    && t.depth <= p.maxDepth
    && Abs(t.delta) <= Faded(p, t.depth, bound)
    && (t.depth == 0 || Abs(t.delta) >= p.threshold)
  }

  ghost predicate Attenuated(p: Params, q: seq<Task>, bound: real) {
    forall k :: 0 <= k < |q| ==> TaskAttenuated(p, q[k], bound)
  }

  lemma AbsProduct(x: real, y: real)
    ensures Abs(x * y) == Abs(x) * Abs(y)
  {
  }

  lemma AbsTimes(x: real, y: real)
    ensures Abs(x * y) == Times(Abs(y), Abs(x))
  {
  }

  lemma ProductMonotone(x: real, y: real, c: real)
    requires x <= y && c >= 0.0
    ensures x * c <= y * c
  {
  }

  lemma MessageAttenuates(p: Params, weight: real, t: Task, bound: real)
    requires Abs(weight) <= 1.0 && TaskAttenuated(p, t, bound)
    ensures Abs(Message(p, weight, t.delta)) <= Faded(p, t.depth + 1, bound)
  {
    DampedProduct(weight, t.delta, p.damping, Faded(p, t.depth, bound));
  }

  lemma DampedProduct(w: real, x: real, damping: real, limit: real)
    requires Abs(w) <= 1.0 && Abs(x) <= limit
    ensures Abs(w * x * damping) <= limit * Abs(damping)
  {
    Shrinks(w, x);
    AbsProduct(w * x, damping);
    ProductMonotone(Abs(w * x), limit, Abs(damping));
  }

  lemma Shrinks(c: real, x: real)
    requires Abs(c) <= 1.0
    ensures Abs(c * x) <= Abs(x)
  {
    AbsTimes(c, x);
    hide Times;
    TimesShrinks(Abs(x), Abs(c));
  }

  lemma DeliverArcAttenuates(p: Params, s: Bfs, arc: Arc, t: Task, bound: real)
    requires arc.target in s.implied && InUnit(s.implied) && Abs(arc.weight) <= 1.0
    requires t.depth < p.maxDepth && TaskAttenuated(p, t, bound) && Attenuated(p, s.queue, bound)
    ensures Attenuated(p, DeliverArc(p, s, arc, t.delta, t.depth).queue, bound)
    ensures InUnit(DeliverArc(p, s, arc, t.delta, t.depth).implied)
  {
    MessageAttenuates(p, arc.weight, t, bound);
    var change := Message(p, arc.weight, t.delta);
    var before := s.implied[arc.target];
    assert Abs(Clamp(before + change, 0.0, 1.0) - before) <= Abs(change);
  }

  lemma {:induction false} DeliverAttenuates(p: Params, s: Bfs, arcs: seq<Arc>, t: Task, bound: real)
    requires Ready(p, s) && ArcsWithin(p.net, arcs) && InUnit(s.implied)
    requires forall k :: 0 <= k < |arcs| ==> Abs(arcs[k].weight) <= 1.0
    requires t.depth < p.maxDepth && TaskAttenuated(p, t, bound) && Attenuated(p, s.queue, bound)
    ensures Attenuated(p, Deliver(p, s, arcs, t.delta, t.depth).queue, bound)
    ensures InUnit(Deliver(p, s, arcs, t.delta, t.depth).implied)
    decreases |arcs|
  {
    if arcs != [] {
      DeliverArcAttenuates(p, s, arcs[0], t, bound);
      DeliverAttenuates(p, DeliverArc(p, s, arcs[0], t.delta, t.depth), arcs[1..], t, bound);
    }
  }

  lemma StepAttenuates(p: Params, s: Bfs, bound: real)
    requires Ready(p, s) && s.queue != [] && InUnit(s.implied)
    requires WeightsBounded(p.net) && Attenuated(p, s.queue, bound)
    ensures Attenuated(p, Step(p, s).queue, bound) && InUnit(Step(p, s).implied)
  {
    hide Deliver;
    var t := s.queue[0];
    assert TaskAttenuated(p, t, bound);
    if t.depth < p.maxDepth {
      DeliverAttenuates(p, s.(queue := s.queue[1..], iterations := s.iterations + 1), p.net[t.node], t, bound);
    }
  }

  /** The loop state after at most `n` turns. */
  ghost function After(p: Params, s: Bfs, n: nat): (r: Bfs)
    requires Ready(p, s)
    ensures Ready(p, r)
    decreases n
  {
    if n == 0 || s.queue == [] then s else After(p, Step(p, s), n - 1)
  }

  /** At every turn of the loop, every queued task at depth d carries at most |damping|^d * bound. */
  lemma {:induction false} EveryTaskAttenuated(p: Params, s: Bfs, bound: real, n: nat)
    requires Ready(p, s) && InUnit(s.implied) && WeightsBounded(p.net) && Attenuated(p, s.queue, bound)
    ensures Attenuated(p, After(p, s, n).queue, bound)
    decreases n
  {
    if n > 0 && s.queue != [] {
      StepAttenuates(p, s, bound);
      EveryTaskAttenuated(p, Step(p, s), bound, n - 1);
    }
  }

  /** When the attenuated bound at the depth limit is below the threshold, no task is ever dropped. */
  lemma {:induction false} Converges(p: Params, s: Bfs, bound: real)
    requires Ready(p, s) && InUnit(s.implied) && WeightsBounded(p.net) && Attenuated(p, s.queue, bound)
    requires p.maxDepth >= 1 && Faded(p, p.maxDepth, bound) < p.threshold
    ensures Drain(p, s).depthLimited == s.depthLimited
    decreases Load(p, s.queue, 1)
  {
    hide Deliver;
    if s.queue != [] {
      var t := s.queue[0];
      assert TaskAttenuated(p, t, bound);
      assert t.depth < p.maxDepth;
      DeliverLoad(p, s.(queue := s.queue[1..], iterations := s.iterations + 1),
                  p.net[t.node], t.delta, t.depth, 1);
      StepAttenuates(p, s, bound);
      StepLoad(p, s, 1);
      Converges(p, Step(p, s), bound);
    }
  }
}
