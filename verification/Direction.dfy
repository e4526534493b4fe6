/** Which of two markets leads, from the move counts of their window. */
module Direction {
  import opened Wrappers
  import opened Sums
  import opened JointHistory

  datatype EdgeDirection = AtoB | BtoA | Undirected

  type Counts = map<Move, nat>

  function Total(c: Counts): nat {
    CountOf(c, (Up, Up)) + CountOf(c, (Up, Down)) + CountOf(c, (Up, Flat))
    + CountOf(c, (Down, Up)) + CountOf(c, (Down, Down)) + CountOf(c, (Down, Flat))
    + CountOf(c, (Flat, Up)) + CountOf(c, (Flat, Down)) + CountOf(c, (Flat, Flat))
  }

  /** A share of a marginal count, 0 when the marginal is empty. */
  function Share(part: nat, whole: nat): real {
    if whole > 0 then Clamp(part as real / whole as real, 0.0, 1.0) else 0.0
  }

  /** P(A up | B up) and P(A down | B down). */
  function Conditionals(c: Counts, minN: nat): Option<(real, real)> {
    if Total(c) < minN then None else
      var bUp := CountOf(c, (Up, Up)) + CountOf(c, (Down, Up)) + CountOf(c, (Flat, Up));
      var bDown := CountOf(c, (Up, Down)) + CountOf(c, (Down, Down)) + CountOf(c, (Flat, Down));
      Some((Share(CountOf(c, (Up, Up)), bUp), Share(CountOf(c, (Down, Down)), bDown)))
  }

  /** P(B up | A up) and P(B down | A down). */
  function ConditionalsReverse(c: Counts, minN: nat): Option<(real, real)> {
    if Total(c) < minN then None else
      var aUp := CountOf(c, (Up, Up)) + CountOf(c, (Up, Down)) + CountOf(c, (Up, Flat));
      var aDown := CountOf(c, (Down, Up)) + CountOf(c, (Down, Down)) + CountOf(c, (Down, Flat));
      Some((Share(CountOf(c, (Up, Up)), aUp), Share(CountOf(c, (Down, Down)), aDown)))
  }

  predicate Reaches(p: Option<(real, real)>, threshold: real) {
    p.Some? && p.value.0 >= threshold && p.value.1 >= threshold
  }

  function InferDirection(c: Counts, minN: nat, threshold: real): EdgeDirection {
    var aFollowsB := Reaches(Conditionals(c, minN), threshold);
    var bFollowsA := Reaches(ConditionalsReverse(c, minN), threshold);
    if aFollowsB && !bFollowsA then BtoA
    else if !aFollowsB && bFollowsA then AtoB
    else Undirected
  }

  /** A share of its own marginal never needs the clamp. */
  lemma ShareExact(part: nat, rest: nat)
    ensures part + rest > 0 ==> Share(part, part + rest) * (part + rest) as real == part as real
    ensures 0.0 <= Share(part, part + rest) <= 1.0
  {
    if part + rest > 0 {
      var q := part as real / (part + rest) as real;
      assert q * (part + rest) as real == part as real;
    }
  }

  // ---------- exchanging the two markets ----------

  function Flip(d: EdgeDirection): EdgeDirection {
    match d
    case AtoB => BtoA
    case BtoA => AtoB
    case Undirected => Undirected
  }

  function Swap(m: Move): Move { (m.1, m.0) }

  function SwapSample(s: Sample): Sample {
    Sample(s.b, s.a, match s.move case None => None case Some(m) => Some(Swap(m)))
  }

  function SwapSamples(samples: seq<Sample>): seq<Sample> {
    seq(|samples|, i requires 0 <= i < |samples| => SwapSample(samples[i]))
  }

  function SwapLog(log: seq<(real, real)>): seq<(real, real)> {
    seq(|log|, i requires 0 <= i < |log| => (log[i].1, log[i].0))
  }

  /** A window fed with the markets exchanged is the exchanged window. */
  lemma {:induction false} SwapReplay(log: seq<(real, real)>, window: nat, threshold: real)
    ensures Replay(SwapLog(log), window, threshold) == SwapSamples(Replay(log, window, threshold))
  {
    if log != [] {
      var front := log[..|log| - 1];
      SwapReplay(front, window, threshold);
      assert SwapLog(log)[..|log| - 1] == SwapLog(front);
    }
  }

  lemma {:induction false} SwapOccurrences(samples: seq<Sample>, m: Move)
    ensures Occurrences(SwapSamples(samples), Swap(m)) == Occurrences(samples, m)
  {
    if samples != [] {
      var k := |samples| - 1;
      SwapOccurrences(samples[..k], m);
      assert SwapSamples(samples)[..k] == SwapSamples(samples[..k]);
    }
  }

  ghost predicate CountsOf(c: Counts, samples: seq<Sample>) {
    forall m :: CountOf(c, m) == Occurrences(samples, m)
  }

  /** Transposed counts flip the direction. */
  lemma TransposeFlips(c: Counts, d: Counts, minN: nat, threshold: real)
    requires forall m :: CountOf(d, Swap(m)) == CountOf(c, m)
    ensures InferDirection(d, minN, threshold) == Flip(InferDirection(c, minN, threshold))
  {
    hide CountOf, Share;
    forall x, y ensures CountOf(d, (x, y)) == CountOf(c, (y, x)) {
      assert Swap((y, x)) == (x, y);
    }
  }

  /** The direction found after any run of observations only depends on which market is which:
      exchanging the two turns it round. */
  lemma ExchangeFlips(log: seq<(real, real)>, window: nat, moveThreshold: real,
                      c: Counts, d: Counts, minN: nat, threshold: real)
    requires CountsOf(c, Replay(log, window, moveThreshold))
    requires CountsOf(d, Replay(SwapLog(log), window, moveThreshold))
    ensures InferDirection(d, minN, threshold) == Flip(InferDirection(c, minN, threshold))
  {
    SwapReplay(log, window, moveThreshold);
    forall m ensures CountOf(d, Swap(m)) == CountOf(c, m) {
      SwapOccurrences(Replay(log, window, moveThreshold), m);
    }
    TransposeFlips(c, d, minN, threshold);
  }

  // ---------- how many moves a window counts ----------

  ghost function Moves(samples: seq<Sample>): nat {
    if samples == [] then 0 else
      Moves(samples[..|samples| - 1]) + if samples[|samples| - 1].move.Some? then 1 else 0
  }

  ghost function AllOccurrences(samples: seq<Sample>): nat {
    Occurrences(samples, (Up, Up)) + Occurrences(samples, (Up, Down)) + Occurrences(samples, (Up, Flat))
    + Occurrences(samples, (Down, Up)) + Occurrences(samples, (Down, Down)) + Occurrences(samples, (Down, Flat))
    + Occurrences(samples, (Flat, Up)) + Occurrences(samples, (Flat, Down)) + Occurrences(samples, (Flat, Flat))
  }

  lemma {:induction false} EveryMoveCounted(samples: seq<Sample>)
    ensures AllOccurrences(samples) == Moves(samples)
  {
    if samples != [] {
      EveryMoveCounted(samples[..|samples| - 1]);
      var move := samples[|samples| - 1].move;
      if move.Some? {
        var (x, y) := move.value;
        assert (x == Up || x == Down || x == Flat) && (y == Up || y == Down || y == Flat);
      }
    }
  }

  lemma {:induction false} MovesOf(samples: seq<Sample>)
    requires forall k :: 0 < k < |samples| ==> samples[k].move.Some?
    ensures Moves(samples) == if samples == [] then 0
                              else |samples| - if samples[0].move.Some? then 0 else 1
  {
    if |samples| > 1 {
      MovesOf(samples[..|samples| - 1]);
    }
  }

  lemma {:induction false} HistoryMoves(log: seq<(real, real)>, threshold: real)
    ensures forall k :: 0 <= k < |log| ==> (History(log, threshold)[k].move.Some? <==> k > 0)
  {
    if log != [] {
      HistoryMoves(log[..|log| - 1], threshold);
    }
  }

  /** The counts total one less than the observations until the window is full, then exactly the window. */
  lemma TotalOfRun(log: seq<(real, real)>, window: nat, moveThreshold: real, c: Counts)
    requires window >= 1 && CountsOf(c, Replay(log, window, moveThreshold))
    ensures Total(c) == if |log| > window then window else if log == [] then 0 else |log| - 1
  {
    var samples := Replay(log, window, moveThreshold);
    WindowIsLast(log, window, moveThreshold);
    HistoryMoves(log, moveThreshold);
    EveryMoveCounted(samples);
    MovesOf(samples);
    assert Total(c) == AllOccurrences(samples);
  }

  // ---------- which market leads ----------

  /** How often one market moved in each way while the other did. */
  function Ups(c: Counts): (nat, nat, nat) {
    var both := CountOf(c, (Up, Up));
    (both, both + CountOf(c, (Up, Down)) + CountOf(c, (Up, Flat)),
     both + CountOf(c, (Down, Up)) + CountOf(c, (Flat, Up)))
  }

  function Downs(c: Counts): (nat, nat, nat) {
    var both := CountOf(c, (Down, Down));
    (both, both + CountOf(c, (Down, Up)) + CountOf(c, (Down, Flat)),
     both + CountOf(c, (Up, Down)) + CountOf(c, (Flat, Down)))
  }

  /** Of `whole` moves of one market, the other made `part` with it: often enough. */
  predicate Often(part: nat, whole: nat, threshold: real) {
    whole > 0 && part as real >= Times(threshold, whole as real)
  }

  /** Whenever the second market moves up, or down, the first one usually does too. */
  predicate FirstFollows(c: Counts, threshold: real) {
    Often(Ups(c).0, Ups(c).2, threshold) && Often(Downs(c).0, Downs(c).2, threshold)
  }

  predicate SecondFollows(c: Counts, threshold: real) {
    Often(Ups(c).0, Ups(c).1, threshold) && Often(Downs(c).0, Downs(c).1, threshold)
  }

  lemma OftenIff(part: nat, rest: nat, threshold: real)
    requires threshold > 0.0
    ensures Share(part, part + rest) >= threshold <==> Often(part, part + rest, threshold)
  {
    var n := (part + rest) as real;
    if part + rest > 0 {
      ShareExact(part, rest);
      var q := Share(part, part + rest);
      assert q * n == part as real;
      if q >= threshold {
        TimesMonotone(threshold, q, n);
      } else {
        PositiveTimes(threshold - q, n);
        assert (threshold - q) * n == threshold * n - q * n;
      }
    }
  }

  /** An edge is drawn from the second market to the first exactly when, with enough moves counted, the first follows
      the second in both directions and not the other way round; and mirrored. */
  lemma LeaderIff(c: Counts, minN: nat, threshold: real)
    requires threshold > 0.0
    ensures InferDirection(c, minN, threshold) == BtoA <==>
      Total(c) >= minN && FirstFollows(c, threshold) && !SecondFollows(c, threshold)
    ensures InferDirection(c, minN, threshold) == AtoB <==>
      Total(c) >= minN && SecondFollows(c, threshold) && !FirstFollows(c, threshold)
  {
    hide CountOf, Share, Often, Total;
    OftenIff(Ups(c).0, Ups(c).1 - Ups(c).0, threshold);
    OftenIff(Ups(c).0, Ups(c).2 - Ups(c).0, threshold);
    OftenIff(Downs(c).0, Downs(c).1 - Downs(c).0, threshold);
    OftenIff(Downs(c).0, Downs(c).2 - Downs(c).0, threshold);
  }

  // ---------- the counts in terms of the prices ----------

  predicate Moved(move: MoveState, before: real, after: real, threshold: real) {
    match move
    case Up => after - before > threshold
    case Down => before - after > threshold
    case Flat => -threshold <= after - before <= threshold
  }

  /** Of the observations from position `from` on, those to which both markets moved in the given way. */
  ghost function Transitions(log: seq<(real, real)>, from: nat, m: Move, threshold: real): nat {
    if |log| <= from || |log| == 1 || log == [] then 0 else
      var k := |log| - 1;
      Transitions(log[..k], from, m, threshold)
      + if Moved(m.0, log[k - 1].0, log[k].0, threshold) && Moved(m.1, log[k - 1].1, log[k].1, threshold) then 1 else 0
  }

  lemma {:induction false} OccurrencesAreTransitions(log: seq<(real, real)>, from: nat, m: Move, threshold: real)
    requires threshold >= 0.0 && from <= |log|
    ensures Occurrences(History(log, threshold)[from..], m) == Transitions(log, from, m, threshold)
  {
    var h := History(log, threshold);
    if from < |log| {
      var k := |log| - 1;
      OccurrencesAreTransitions(log[..k], from, m, threshold);
      assert h[from..][..|log| - from - 1] == History(log[..k], threshold)[from..];
      assert h[from..][|log| - from - 1] == h[k];
      if k == 0 {
        assert History([], threshold)[0..] == [];
      } else {
        assert h[k].move == Some(MoveBetween(h[k - 1], log[k].0, log[k].1, threshold));
      }
    } else {
      assert h[from..] == [];
    }
  }

  /** After any run the counts say how often, among the last `window` observations, both markets rose by more than the
      threshold, fell by more than it, or did neither. */
  lemma CountsAreMoves(log: seq<(real, real)>, window: nat, threshold: real, c: Counts, m: Move)
    requires window >= 1 && threshold >= 0.0 && CountsOf(c, Replay(log, window, threshold))
    ensures CountOf(c, m) == Transitions(log, if |log| > window then |log| - window else 0, m, threshold)
  {
    WindowIsLast(log, window, threshold);
    OccurrencesAreTransitions(log, if |log| > window then |log| - window else 0, m, threshold);
    assert History(log, threshold)[0..] == History(log, threshold);
  }
}
