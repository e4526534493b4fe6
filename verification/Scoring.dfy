/** Pending predictions and their Brier scores: the calibration state as a value. */
module Scoring {
  import opened Wrappers
  import opened Correlation

  datatype Prediction = Prediction(prob: real, timestamp: int)

  datatype BrierRecord = BrierRecord(marketId: string, predicted: real, outcome: real, brier: real)

  datatype Scores = Scores(pending: map<string, Prediction>, records: seq<BrierRecord>, resolved: set<string>)

  datatype Event = Posterior(id: string, prob: real, timestamp: int) | Market(id: string, price: real)

  /** 0 or 1 when the price is extreme enough to settle the market. */
  function Outcome(price: real, epsilon: real): Option<real> {
    if price <= epsilon then Some(0.0)
    else if price >= 1.0 - epsilon then Some(1.0)
    else None
  }

  function Score(id: string, p: real, outcome: real): BrierRecord {
    BrierRecord(id, p, outcome, Square(p - outcome))
  }

  function Predict(st: Scores, id: string, prob: real, timestamp: int): Scores {
    if id in st.resolved then st else st.(pending := st.pending[id := Prediction(prob, timestamp)])
  }

  function Resolve(st: Scores, id: string, price: real, epsilon: real): (Scores, Option<BrierRecord>) {
    var outcome := Outcome(price, epsilon);
    if id in st.resolved || outcome.None? then (st, None)
    else
      var settled := st.(resolved := st.resolved + {id}, pending := st.pending - {id});
      if id !in st.pending then (settled, None)
      else
        var record := Score(id, st.pending[id].prob, outcome.value);
        (settled.(records := st.records + [record]), Some(record))
  }

  function Step(st: Scores, e: Event, epsilon: real): Scores {
    match e
    case Posterior(id, prob, timestamp) => Predict(st, id, prob, timestamp)
    case Market(id, price) => Resolve(st, id, price, epsilon).0
  }

  function Run(events: seq<Event>, epsilon: real): Scores {
    if events == [] then Scores(map[], [], {}) else
      Step(Run(events[..|events| - 1], epsilon), events[|events| - 1], epsilon)
  }

  // ---------- the invariant ----------

  /** Pending and resolved are disjoint, every record belongs to a resolved market, none has two. */
  ghost predicate Sound(st: Scores) {
    && (forall id :: id in st.pending ==> id !in st.resolved)
    && (forall i :: 0 <= i < |st.records| ==> st.records[i].marketId in st.resolved)
    && (forall i, j :: 0 <= i < j < |st.records| ==> st.records[i].marketId != st.records[j].marketId)
  }

  lemma StepKeeps(st: Scores, e: Event, epsilon: real)
    requires Sound(st)
    ensures Sound(Step(st, e, epsilon))
    ensures st.resolved <= Step(st, e, epsilon).resolved
    ensures st.records <= Step(st, e, epsilon).records
  {
  }

  // ---------- what a run should score ----------

  /** When the market first trades at an extreme price. */
  ghost function ResolvedAt(events: seq<Event>, id: string, epsilon: real): (k: Option<nat>)
    ensures k.Some? ==> k.value < |events|
  {
    if events == [] then None else
      var last := |events| - 1;
      var before := ResolvedAt(events[..last], id, epsilon);
      if before.Some? then before
      else if events[last].Market? && events[last].id == id && Outcome(events[last].price, epsilon).Some?
      then Some(last)
      else None
  }

  /** The last prediction made for the market. */
  ghost function LastPrediction(events: seq<Event>, id: string): Option<Prediction> {
    if events == [] then None else
      var last := events[|events| - 1];
      if last.Posterior? && last.id == id then Some(Prediction(last.prob, last.timestamp))
      else LastPrediction(events[..|events| - 1], id)
  }

  /** The last prediction made before the first extreme price, scored against that price's outcome. */
  ghost function Expected(events: seq<Event>, id: string, epsilon: real): Option<BrierRecord> {
    var at := ResolvedAt(events, id, epsilon);
    if at.None? || !events[at.value].Market? then None else
      var prediction := LastPrediction(events[..at.value], id);
      var outcome := Outcome(events[at.value].price, epsilon);
      if prediction.None? || outcome.None? then None
      else Some(Score(id, prediction.value.prob, outcome.value))
  }

  ghost predicate Scored(st: Scores, r: BrierRecord) {
    exists i :: 0 <= i < |st.records| && st.records[i] == r
  }

  /** The state agrees with the event log about one market. */
  ghost predicate Agrees(st: Scores, events: seq<Event>, id: string, epsilon: real) {
    && (id in st.resolved <==> ResolvedAt(events, id, epsilon).Some?)
    && (id !in st.resolved ==>
          if id in st.pending then LastPrediction(events, id) == Some(st.pending[id])
          else LastPrediction(events, id) == None)
    && (forall r: BrierRecord :: r.marketId == id ==>
          (Scored(st, r) <==> Expected(events, id, epsilon) == Some(r)))
  }

  lemma ScoredMore(st: Scores, more: Scores, record: BrierRecord)
    requires more.records == st.records + [record]
    ensures forall r :: Scored(more, r) <==> Scored(st, r) || r == record
  {
    forall r | Scored(st, r) ensures Scored(more, r) {
      var i :| 0 <= i < |st.records| && st.records[i] == r;
      assert more.records[i] == r;
    }
    assert more.records[|st.records|] == record;
  }

  /** Once a market is resolved, later events never change what was expected for it. */
  lemma ExpectedFixed(events: seq<Event>, e: Event, id: string, epsilon: real)
    requires ResolvedAt(events, id, epsilon).Some?
    ensures ResolvedAt(events + [e], id, epsilon) == ResolvedAt(events, id, epsilon)
    ensures Expected(events + [e], id, epsilon) == Expected(events, id, epsilon)
  {
    assert (events + [e])[..|events|] == events;
    var k := ResolvedAt(events, id, epsilon).value;
    assert (events + [e])[..k] == events[..k];
  }

  lemma StepAgrees(st: Scores, events: seq<Event>, e: Event, id: string, epsilon: real)
    requires Sound(st) && Agrees(st, events, id, epsilon)
    ensures Agrees(Step(st, e, epsilon), events + [e], id, epsilon)
  {
    var longer, next := events + [e], Step(st, e, epsilon);
    assert longer[..|events|] == events && longer[|events|] == e;
    forall r: BrierRecord | r.marketId == id
      ensures Scored(next, r) <==> Expected(longer, id, epsilon) == Some(r) {
      if id in st.resolved {
        ExpectedFixed(events, e, id, epsilon);
      }
      if next.records != st.records {
        ScoredMore(st, next, next.records[|st.records|]);
      } else {
        assert Scored(next, r) <==> Scored(st, r);
      }
    }
  }

  /** After any run, each market has exactly the record the log calls for: its last prediction before
      its first extreme price, against the outcome of that price, and nothing else. */
  lemma {:induction false} RunScores(events: seq<Event>, id: string, epsilon: real)
    ensures Sound(Run(events, epsilon))
    ensures Agrees(Run(events, epsilon), events, id, epsilon)
  {
    if events != [] {
      var k := |events| - 1;
      RunScores(events[..k], id, epsilon);
      StepKeeps(Run(events[..k], epsilon), events[k], epsilon);
      StepAgrees(Run(events[..k], epsilon), events[..k], events[k], id, epsilon);
      assert events[..k] + [events[k]] == events;
    }
  }

  // ---------- what a record says ----------

  /** The record's market had reached an extreme price, near 1 for outcome 1 and near 0 for outcome 0, and its score
      is the squared distance to that outcome. */
  ghost predicate Deserved(events: seq<Event>, r: BrierRecord, epsilon: real) {
    && (exists k :: 0 <= k < |events| && events[k].Market? && events[k].id == r.marketId
                    && if r.outcome == 1.0 then events[k].price >= 1.0 - epsilon
                       else r.outcome == 0.0 && events[k].price <= epsilon)
    && r.brier == (if r.outcome == 1.0 then Square(1.0 - r.predicted) else Square(r.predicted))
  }

  lemma {:induction false} ExtremePrice(events: seq<Event>, id: string, epsilon: real)
    ensures var at := ResolvedAt(events, id, epsilon);
      at.Some? ==> events[at.value].Market? && events[at.value].id == id
                   && (events[at.value].price <= epsilon || events[at.value].price >= 1.0 - epsilon)
    ensures ResolvedAt(events, id, epsilon).None? ==>
      forall k :: 0 <= k < |events| && events[k].Market? && events[k].id == id ==>
        epsilon < events[k].price < 1.0 - epsilon
  {
    if events != [] {
      ExtremePrice(events[..|events| - 1], id, epsilon);
    }
  }

  lemma SquareEven(x: real)
    ensures Square(x) == Square(-x)
  {
  }

  /** In every run a market is settled exactly when some price of it was within epsilon of 0 or 1, and each record
      is deserved. */
  lemma RecordsDeserved(events: seq<Event>, epsilon: real)
    requires epsilon < 0.5
    ensures forall id :: id in Run(events, epsilon).resolved <==>
      exists k :: 0 <= k < |events| && events[k].Market? && events[k].id == id
                  && (events[k].price <= epsilon || events[k].price >= 1.0 - epsilon)
    ensures forall r :: r in Run(events, epsilon).records ==> Deserved(events, r, epsilon)
  {
    var st := Run(events, epsilon);
    hide Run, ResolvedAt, LastPrediction, Square;
    forall id ensures id in st.resolved <==>
      exists k :: 0 <= k < |events| && events[k].Market? && events[k].id == id
                  && (events[k].price <= epsilon || events[k].price >= 1.0 - epsilon) {
      RunScores(events, id, epsilon);
      ExtremePrice(events, id, epsilon);
    }
    forall r | r in st.records ensures Deserved(events, r, epsilon) {
      RunScores(events, r.marketId, epsilon);
      ExtremePrice(events, r.marketId, epsilon);
      var i :| 0 <= i < |st.records| && st.records[i] == r;
      assert Scored(st, r);
      assert Expected(events, r.marketId, epsilon) == Some(r);
      var at := ResolvedAt(events, r.marketId, epsilon).value;
      assert events[at].Market? && events[at].id == r.marketId;
      SquareEven(1.0 - r.predicted);
    }
  }
}
