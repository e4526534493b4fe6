/** Rolling windows of paired observations and their move counts. */
module JointHistory {
  import opened Wrappers
  import opened Sums

  datatype MoveState = Up | Down | Flat

  type Move = (MoveState, MoveState)

  /** One paired observation; the first one ever has no predecessor to compare with. */
  datatype Sample = Sample(a: real, b: real, move: Option<Move>)

  function Classify(delta: real, threshold: real): MoveState {
    if delta > threshold then Up else if delta < -threshold then Down else Flat
  }

  function MoveBetween(before: Sample, a: real, b: real, threshold: real): Move {
    (Classify(a - before.a, threshold), Classify(b - before.b, threshold))
  }

  /** Append an observation and drop the oldest one beyond the window. */
  function Append(samples: seq<Sample>, a: real, b: real, window: nat, threshold: real): seq<Sample> {
    var move := if samples == [] then None else Some(MoveBetween(samples[|samples| - 1], a, b, threshold));
    var longer := samples + [Sample(a, b, move)];
    if |longer| > window then longer[1..] else longer
  }

  // ---------- the window against the full history ----------

  /** Every observation ever made, each compared with its predecessor. */
  ghost function History(log: seq<(real, real)>, threshold: real): (h: seq<Sample>)
    ensures |h| == |log|
    ensures forall k :: 0 <= k < |log| ==> h[k].a == log[k].0 && h[k].b == log[k].1
  {
    if log == [] then [] else
      var front := History(log[..|log| - 1], threshold);
      var last := log[|log| - 1];
      front + [Sample(last.0, last.1,
                      if front == [] then None else Some(MoveBetween(front[|front| - 1], last.0, last.1, threshold)))]
  }

  ghost function Replay(log: seq<(real, real)>, window: nat, threshold: real): seq<Sample> {
    if log == [] then [] else
      var last := log[|log| - 1];
      Append(Replay(log[..|log| - 1], window, threshold), last.0, last.1, window, threshold)
  }

  lemma AppendIsLast(h: seq<Sample>, a: real, b: real, window: nat, threshold: real)
    requires window >= 1
    ensures Append(LastOf(h, window), a, b, window, threshold)
         == LastOf(h + [Sample(a, b, if h == [] then None else Some(MoveBetween(h[|h| - 1], a, b, threshold)))], window)
  {
    hide MoveBetween;
    var kept := LastOf(h, window);
    assert h != [] ==> kept != [] && kept[|kept| - 1] == h[|h| - 1];
  }

  /** After any sequence of pushes the window holds the last `window` observations of the full history. */
  lemma {:induction false} WindowIsLast(log: seq<(real, real)>, window: nat, threshold: real)
    requires window >= 1
    ensures Replay(log, window, threshold) == LastOf(History(log, threshold), window)
  {
    if log != [] {
      var front, last := log[..|log| - 1], log[|log| - 1];
      WindowIsLast(front, window, threshold);
      AppendIsLast(History(front, threshold), last.0, last.1, window, threshold);
    }
  }

  // ---------- counts ----------

  ghost function Occurrences(samples: seq<Sample>, m: Move): nat {
    if samples == [] then 0 else
      Occurrences(samples[..|samples| - 1], m) + if samples[|samples| - 1].move == Some(m) then 1 else 0
  }

  lemma {:induction false} OccurrencesFront(samples: seq<Sample>, m: Move)
    requires samples != []
    ensures Occurrences(samples, m) == Occurrences(samples[1..], m) + if samples[0].move == Some(m) then 1 else 0
  {
    if |samples| > 1 {
      var front := samples[..|samples| - 1];
      OccurrencesFront(front, m);
      assert samples[1..][..|samples| - 2] == front[1..];
    } else {
      assert samples[..0] == [] && samples[1..] == [];
    }
  }

  function CountOf(counts: map<Move, nat>, m: Move): nat {
    if m in counts then counts[m] else 0
  }

  // ---------- one joint entry ----------

  datatype Joint = Joint(samples: seq<Sample>, counts: map<Move, nat>, lastEmittedAt: Option<int>)

  const EMPTY_JOINT: Joint := Joint([], map[], None)

  /** Each count is the number of window entries with that move. */
  ghost predicate Counted(j: Joint) {
    forall m :: CountOf(j.counts, m) == Occurrences(j.samples, m)
  }

  function Incremented(counts: map<Move, nat>, m: Move): map<Move, nat> {
    counts[m := CountOf(counts, m) + 1]
  }

  /** The saturating decrement; a move without an entry stays without one. */
  function Decremented(counts: map<Move, nat>, m: Move): map<Move, nat> {
    if m in counts then counts[m := if counts[m] > 0 then counts[m] - 1 else 0] else counts
  }

  /** Push one observation, counting its move and uncounting the evicted one. */
  function Pushed(j: Joint, a: real, b: real, window: nat, threshold: real): Joint {
    var counts := if j.samples == [] then j.counts
                  else Incremented(j.counts, MoveBetween(j.samples[|j.samples| - 1], a, b, threshold));
    var oldest := if j.samples == [] then None else j.samples[0].move;
    j.(samples := Append(j.samples, a, b, window, threshold),
       counts := if |j.samples| + 1 > window && oldest.Some? then Decremented(counts, oldest.value) else counts)
  }

  lemma CountedAfterAppend(j: Joint, sample: Sample, counts: map<Move, nat>)
    requires Counted(j)
    requires counts == if sample.move.Some? then Incremented(j.counts, sample.move.value) else j.counts
    ensures Counted(j.(samples := j.samples + [sample], counts := counts))
  {
    assert (j.samples + [sample])[..|j.samples|] == j.samples;
  }

  lemma CountedAfterEviction(j: Joint)
    requires Counted(j) && j.samples != []
    ensures Counted(j.(samples := j.samples[1..],
      counts := if j.samples[0].move.Some? then Decremented(j.counts, j.samples[0].move.value) else j.counts))
    ensures j.samples[0].move.Some? ==> CountOf(j.counts, j.samples[0].move.value) > 0
  {
    forall m ensures Occurrences(j.samples, m)
      == Occurrences(j.samples[1..], m) + if j.samples[0].move == Some(m) then 1 else 0 {
      OccurrencesFront(j.samples, m);
    }
  }

  /** A push keeps every count right; the evicted entry's count is positive, so the decrement never saturates. */
  lemma PushedKeeps(j: Joint, a: real, b: real, window: nat, threshold: real)
    requires Counted(j)
    ensures Counted(Pushed(j, a, b, window, threshold))
  {
    var move := if j.samples == [] then None else Some(MoveBetween(j.samples[|j.samples| - 1], a, b, threshold));
    var sample := Sample(a, b, move);
    var counts := if move.Some? then Incremented(j.counts, move.value) else j.counts;
    CountedAfterAppend(j, sample, counts);
    if |j.samples| + 1 > window && j.samples != [] {
      CountedAfterEviction(j.(samples := j.samples + [sample], counts := counts));
    }
  }

  class JointEntry {
    var samples: seq<Sample>
    var counts: map<Move, nat>
    var lastEmittedAt: Option<int>

    ghost function View(): Joint
      reads this
    {
      Joint(samples, counts, lastEmittedAt)
    }

    /** Take up a stored entry. */
    constructor (j: Joint)
      ensures View() == j
    {
      samples, counts, lastEmittedAt := j.samples, j.counts, j.lastEmittedAt;
    }

    method Push(a: real, b: real, window: nat, threshold: real)
      modifies this`samples, this`counts
      ensures View() == Pushed(old(View()), a, b, window, threshold)
      ensures old(Counted(View())) ==> Counted(View())
    {
      ghost var before := View();
      if Counted(before) {
        PushedKeeps(before, a, b, window, threshold);
      }
      var move: Option<Move> := None;
      if samples != [] {
        var m := MoveBetween(samples[|samples| - 1], a, b, threshold);
        counts := counts[m := CountOf(counts, m) + 1];
        move := Some(m);
      }
      samples := samples + [Sample(a, b, move)];
      if |samples| > window {
        var oldest := samples[0];
        samples := samples[1..];
        if oldest.move.Some? && oldest.move.value in counts {
          var c := counts[oldest.move.value];
          counts := counts[oldest.move.value := if c > 0 then c - 1 else 0];
        }
      }
    }
  }
}
