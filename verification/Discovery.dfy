/** Relationship discovery: price histories, dirty-flag pairing and eviction. */
module Discovery {
  import opened Wrappers
  import opened Sums
  import opened Lex
  import opened JointHistory
  import opened Correlation
  import opened Embedding
  import opened MutualInformation
  import opened Relationship

  datatype DiscoveryConfig = DiscoveryConfig(
    score: ScoreConfig,
    maxHistoryLen: nat,
    minProbChange: real,
    priceChangeThreshold: real,
    marketTtlSecs: int,
    evictionInterval: nat)

  predicate ConfigOk(config: DiscoveryConfig) {
    2 <= config.score.minHistoryLen <= config.maxHistoryLen && config.evictionInterval > 0
  }

  datatype MarketHistory = MarketHistory(prices: seq<real>, lastSeen: int, dirty: bool)

  type Pair = (string, string)

  /** `accepted` counts price samples past the noise gate, `pushes` joint observations. */
  datatype State = State(
    histories: map<string, MarketHistory>,
    joints: map<Pair, Joint>,
    sinceEviction: nat,
    accepted: nat,
    pushes: nat)

  function CanonicalPair(a: string, b: string): Pair {
    if Less(b, a) then (b, a) else (a, b)
  }

  ghost function Dirty(st: State): set<string> {
    set id | id in st.histories && st.histories[id].dirty
  }

  // ---------- the phases of one market update ----------

  predicate Noise(config: DiscoveryConfig, st: State, id: string, prob: real) {
    && id in st.histories && st.histories[id].prices != []
    && Abs(prob - st.histories[id].prices[|st.histories[id].prices| - 1]) < config.minProbChange
  }

  /** The market is seen now; its history starts empty if it is new. */
  function Seen(st: State, id: string, now: int): State {
    st.(histories := st.histories[id :=
      if id in st.histories then st.histories[id].(lastSeen := now) else MarketHistory([], now, false)])
  }

  function PushBounded(prices: seq<real>, prob: real, limit: nat): seq<real> {
    var longer := prices + [prob];
    if |longer| > limit then longer[1..] else longer
  }

  /** Record an accepted price and mark the market dirty. */
  function Record(config: DiscoveryConfig, st: State, id: string, prob: real): State
    requires id in st.histories
  {
    var h := st.histories[id];
    st.(histories := st.histories[id := h.(prices := PushBounded(h.prices, prob, config.maxHistoryLen), dirty := true)],
        accepted := st.accepted + 1)
  }

  /** A market that can take part in a pairing: enough history and fresh data. */
  predicate Pairable(config: DiscoveryConfig, st: State, id: string) {
    id in st.histories && |st.histories[id].prices| >= config.score.minHistoryLen && st.histories[id].dirty
  }

  function LatestPrice(st: State, id: string): real
    requires id in st.histories && st.histories[id].prices != []
  {
    st.histories[id].prices[|st.histories[id].prices| - 1]
  }

  /** What scoring a pair takes as given: the two correlations, mutual information and similarity. */
  datatype Score = Score(p: real, s: real, mi: real, similarity: real)

  /** The joint entry of two markets after the observation, with the price of the smaller id first. */
  function Observed(config: DiscoveryConfig, st: State, id: string, peer: string, prob: real): Joint
    requires peer in st.histories && st.histories[peer].prices != []
  {
    var pair := CanonicalPair(id, peer);
    var peerProb := LatestPrice(st, peer);
    var (pa, pb) := if Less(peer, id) then (peerProb, prob) else (prob, peerProb);
    Pushed(if pair in st.joints then st.joints[pair] else EMPTY_JOINT, pa, pb,
           config.maxHistoryLen, config.priceChangeThreshold)
  }

  /** What scoring that entry announces. */
  function Attempted(config: DiscoveryConfig, st: State, id: string, peer: string, prob: real, now: int, score: Score)
    : Option<RelationshipDiscovered>
    requires peer in st.histories && st.histories[peer].prices != []
  {
    var joint := Observed(config, st, id, peer, prob);
    Verdict(config.score, CanonicalPair(id, peer), joint.samples, joint.counts, joint.lastEmittedAt,
            score.p, score.s, score.mi, score.similarity, now)
  }

  function Stamped(joint: Joint, found: Option<RelationshipDiscovered>, now: int): Joint {
    if found.Some? then joint.(lastEmittedAt := Some(now)) else joint
  }

  /** Push one joint observation for two markets, score it, and clear both dirty flags. */
  function PairUp(config: DiscoveryConfig, st: State, id: string, peer: string, prob: real, now: int,
                  score: Score): State
    requires id in st.histories && peer in st.histories && st.histories[peer].prices != []
  {
    var joint := Stamped(Observed(config, st, id, peer, prob), Attempted(config, st, id, peer, prob, now, score), now);
    st.(joints := st.joints[CanonicalPair(id, peer) := joint],
        histories := st.histories[peer := st.histories[peer].(dirty := false)]
                                 [id := st.histories[id].(dirty := false)],
        pushes := st.pushes + 1)
  }

  predicate Stale(config: DiscoveryConfig, h: MarketHistory, now: int) {
    now - h.lastSeen >= 0 && now - h.lastSeen >= config.marketTtlSecs
  }

  /** Drop stale markets and every joint entry naming one. */
  function Evict(config: DiscoveryConfig, st: State, now: int): State {
    var kept := map id | id in st.histories && !Stale(config, st.histories[id], now) :: st.histories[id];
    st.(histories := kept, joints := map p | p in st.joints && p.0 in kept && p.1 in kept :: st.joints[p])
  }

  function Tick(config: DiscoveryConfig, st: State, now: int): State {
    var n := st.sinceEviction + 1;
    if n >= config.evictionInterval then Evict(config, st.(sinceEviction := 0), now) else st.(sinceEviction := n)
  }

  /** The peer of an update: some other pairable market, or none when there is none. */
  ghost predicate PeerChoice(config: DiscoveryConfig, st: State, id: string, peer: Option<string>) {
    match peer
    case Some(p) => p != id && Pairable(config, st, p)
    case None => forall p :: p != id ==> !Pairable(config, st, p)
  }

  /** One market price; `peer` is the lookup order's pick among the pairable markets. */
  datatype MarketUpdate = MarketUpdate(id: string, prob: real, now: int, peer: Option<string>, score: Score)

  ghost predicate Applies(config: DiscoveryConfig, st: State, u: MarketUpdate) {
    PeerChoice(config, Recorded(config, st, u.id, u.prob, u.now), u.id, u.peer)
  }

  /** The update gets past the noise gate and the warm-up, and finds a peer. */
  predicate Pairs(config: DiscoveryConfig, st: State, u: MarketUpdate) {
    && !Noise(config, st, u.id, u.prob)
    && |Recorded(config, st, u.id, u.prob, u.now).histories[u.id].prices| >= config.score.minHistoryLen
    && u.peer.Some?
  }

  ghost function Next(config: DiscoveryConfig, st: State, u: MarketUpdate): State
    requires ConfigOk(config) && Applies(config, st, u)
  {
    if Noise(config, st, u.id, u.prob) then Seen(st, u.id, u.now) else
      var st1 := Recorded(config, st, u.id, u.prob, u.now);
      if |st1.histories[u.id].prices| < config.score.minHistoryLen then st1 else
        Tick(config, if u.peer.Some? then PairUp(config, st1, u.id, u.peer.value, u.prob, u.now, u.score) else st1,
             u.now)
  }

  /** What the update announces. */
  ghost function Announced(config: DiscoveryConfig, st: State, u: MarketUpdate): Option<RelationshipDiscovered>
    requires ConfigOk(config) && Applies(config, st, u)
  {
    if Pairs(config, st, u)
    then Attempted(config, Recorded(config, st, u.id, u.prob, u.now), u.id, u.peer.value, u.prob, u.now, u.score)
    else None
  }

  function Recorded(config: DiscoveryConfig, st: State, id: string, prob: real, now: int): (r: State)
    ensures id in r.histories
  {
    Record(config, Seen(st, id, now), id, prob)
  }

  // ---------- invariant ----------

  /** Every joint entry belongs to a strictly ordered pair of live markets. */
  ghost predicate PairsLive(st: State) {
    forall p :: p in st.joints ==> Less(p.0, p.1) && p.0 in st.histories && p.1 in st.histories
  }

  /** Each joint observation consumed two accepted samples; each dirty market still holds one. */
  ghost predicate SamplesAccounted(st: State) {
    2 * st.pushes + |Dirty(st)| <= st.accepted
  }

  ghost predicate Bounded(config: DiscoveryConfig, st: State) {
    && (forall id :: id in st.histories ==> |st.histories[id].prices| <= config.maxHistoryLen)
    && (forall p :: p in st.joints ==> 1 <= |st.joints[p].samples| <= config.maxHistoryLen)
  }

  /** Every move count of every joint entry is right for its window. */
  ghost predicate JointsCounted(st: State) {
    forall p :: p in st.joints ==> Counted(st.joints[p])
  }

  ghost predicate StateOk(config: DiscoveryConfig, st: State) {
    PairsLive(st) && SamplesAccounted(st) && Bounded(config, st) && JointsCounted(st)
  }

  lemma SeenKeeps(config: DiscoveryConfig, st: State, id: string, now: int)
    requires StateOk(config, st)
    ensures StateOk(config, Seen(st, id, now))
  {
    assert Dirty(Seen(st, id, now)) == Dirty(st);
  }

  lemma RecordKeeps(config: DiscoveryConfig, st: State, id: string, prob: real)
    requires StateOk(config, st) && id in st.histories
    ensures StateOk(config, Record(config, st, id, prob)) && id in Dirty(Record(config, st, id, prob))
  {
    assert Dirty(Record(config, st, id, prob)) == Dirty(st) + {id};
  }

  lemma ObservedKeeps(config: DiscoveryConfig, st: State, id: string, peer: string, prob: real)
    requires StateOk(config, st) && ConfigOk(config)
    requires peer in st.histories && st.histories[peer].prices != []
    ensures var joint := Observed(config, st, id, peer, prob);
      Counted(joint) && 1 <= |joint.samples| <= config.maxHistoryLen
  {
    var pair := CanonicalPair(id, peer);
    var joint := if pair in st.joints then st.joints[pair] else EMPTY_JOINT;
    var peerProb := LatestPrice(st, peer);
    var (pa, pb) := if Less(peer, id) then (peerProb, prob) else (prob, peerProb);
    PushedKeeps(joint, pa, pb, config.maxHistoryLen, config.priceChangeThreshold);
  }

  lemma PairUpDirty(config: DiscoveryConfig, st: State, id: string, peer: string, prob: real, now: int, score: Score)
    requires id != peer && id in Dirty(st) && Pairable(config, st, peer) && st.histories[peer].prices != []
    ensures |Dirty(PairUp(config, st, id, peer, prob, now, score))| == |Dirty(st)| - 2
  {
    hide Observed, Attempted;
    assert Dirty(PairUp(config, st, id, peer, prob, now, score)) == Dirty(st) - {id, peer};
    assert Dirty(st) - {id} - {peer} == Dirty(st) - {id, peer};
  }

  lemma PairUpJoints(config: DiscoveryConfig, st: State, id: string, peer: string, prob: real, now: int, score: Score)
    requires StateOk(config, st) && ConfigOk(config)
    requires id != peer && id in st.histories && peer in st.histories && st.histories[peer].prices != []
    ensures var r := PairUp(config, st, id, peer, prob, now, score);
      PairsLive(r) && Bounded(config, r) && JointsCounted(r)
  {
    hide Observed, Attempted, Counted, Stamped, Less;
    CanonicalOrdered(id, peer);
    ObservedKeeps(config, st, id, peer, prob);
    StampCounted(Observed(config, st, id, peer, prob), Attempted(config, st, id, peer, prob, now, score), now);
  }

  lemma CanonicalOrdered(id: string, peer: string)
    requires id != peer
    ensures var p := CanonicalPair(id, peer);
      Less(p.0, p.1) && {p.0, p.1} == {id, peer}
  {
    Trichotomy(id, peer);
  }

  lemma PairUpKeeps(config: DiscoveryConfig, st: State, id: string, peer: string, prob: real, now: int, score: Score)
    requires StateOk(config, st) && ConfigOk(config)
    requires id != peer && id in Dirty(st) && Pairable(config, st, peer)
    ensures StateOk(config, PairUp(config, st, id, peer, prob, now, score))
  {
    hide Observed, Attempted, PairsLive, Bounded, JointsCounted;
    PairUpDirty(config, st, id, peer, prob, now, score);
    PairUpJoints(config, st, id, peer, prob, now, score);
  }

  lemma StampCounted(joint: Joint, found: Option<RelationshipDiscovered>, now: int)
    requires Counted(joint)
    ensures Counted(Stamped(joint, found, now)) && Stamped(joint, found, now).samples == joint.samples
  {
  }

  lemma EvictKeeps(config: DiscoveryConfig, st: State, now: int)
    requires StateOk(config, st)
    ensures StateOk(config, Evict(config, st, now))
    ensures forall p :: p in Evict(config, st, now).joints <==>
      p in st.joints && !Stale(config, st.histories[p.0], now) && !Stale(config, st.histories[p.1], now)
  {
    var r := Evict(config, st, now);
    assert Dirty(r) <= Dirty(st);
    SubsetBound(Dirty(r), Dirty(st));
  }

  lemma {:induction false} SubsetBound(a: set<string>, b: set<string>)
    requires a <= b
    ensures |a| <= |b|
    decreases a
  {
    if a != {} {
      var x :| x in a;
      SubsetBound(a - {x}, b - {x});
    }
  }

  lemma UpdateKeeps(config: DiscoveryConfig, st: State, u: MarketUpdate)
    requires ConfigOk(config) && StateOk(config, st) && Applies(config, st, u)
    ensures StateOk(config, Next(config, st, u))
  {
    hide StateOk, Record, Seen, PairUp, Evict;
    SeenKeeps(config, st, u.id, u.now);
    if !Noise(config, st, u.id, u.prob) {
      SeenHas(st, u.id, u.now);
      RecordKeeps(config, Seen(st, u.id, u.now), u.id, u.prob);
      var st1 := Recorded(config, st, u.id, u.prob, u.now);
      var st2 := st1;
      if u.peer.Some? {
        PairUpKeeps(config, st1, u.id, u.peer.value, u.prob, u.now, u.score);
        st2 := PairUp(config, st1, u.id, u.peer.value, u.prob, u.now, u.score);
      }
      CounterKeeps(config, st2, 0);
      CounterKeeps(config, st2, st2.sinceEviction + 1);
      EvictKeeps(config, st2.(sinceEviction := 0), u.now);
    }
  }

  lemma SeenHas(st: State, id: string, now: int)
    ensures id in Seen(st, id, now).histories
  {
  }

  lemma CounterKeeps(config: DiscoveryConfig, st: State, n: nat)
    requires StateOk(config, st)
    ensures StateOk(config, st.(sinceEviction := n))
  {
    assert Dirty(st.(sinceEviction := n)) == Dirty(st);
  }

  // ---------- runs ----------

  const INITIAL: State := State(map[], map[], 0, 0, 0)

  ghost predicate IsRun(config: DiscoveryConfig, trace: seq<State>, updates: seq<MarketUpdate>)
    requires ConfigOk(config)
  {
    && |trace| == |updates| + 1 && trace[0] == INITIAL
    && forall k :: 0 <= k < |updates| ==>
        Applies(config, trace[k], updates[k]) && trace[k + 1] == Next(config, trace[k], updates[k])
  }

  /** Over every run, across evictions: at most half the accepted samples become joint observations, with one
      sample left per dirty market, and joint entries name two live markets in strict order, with exact counts. */
  lemma {:induction false} RunKeepsState(config: DiscoveryConfig, trace: seq<State>, updates: seq<MarketUpdate>, k: nat)
    requires ConfigOk(config) && IsRun(config, trace, updates) && k < |trace|
    ensures StateOk(config, trace[k])
  {
    hide Next;
    if k > 0 {
      RunKeepsState(config, trace, updates, k - 1);
      assert trace[k] == Next(config, trace[k - 1], updates[k - 1]);
      UpdateKeeps(config, trace[k - 1], updates[k - 1]);
    } else {
      assert Dirty(trace[0]) == {};
    }
  }

  // ---------- the engine ----------

  /** The scores the engine works with: correlations of the window, mutual information of its counts,
      similarity of the two ids. */
  ghost predicate IsScore(score: Score, joint: Joint, pair: Pair, tokens: string -> seq<string>,
                          minN: nat, ln: real -> real, sqrt: real -> real)
  {
    && (exists p, s :: CorrelationsOf(joint.samples, sqrt, p, s) && score.p == OrZero(p) && score.s == OrZero(s))
    && score.mi == NormalizedMi(joint.counts, minN, ln)
    && score.similarity == Clamp(Dot(EmbeddingOf(tokens(pair.0), sqrt), EmbeddingOf(tokens(pair.1), sqrt)), 0.0, 1.0)
  }

  class DiscoveryEngine {
    const config: DiscoveryConfig
    const tokens: string -> seq<string>
    const ln: real -> real
    const sqrt: real -> real
    var histories: map<string, MarketHistory>
    var embeddings: map<string, Vector>
    var joints: map<Pair, Joint>
    var eventsProcessed: nat
    var relationshipsDiscovered: nat
    var sinceEviction: nat
    ghost var accepted: nat
    ghost var pushes: nat

    ghost function View(): State
      reads this
    {
      State(histories, joints, sinceEviction, accepted, pushes)
    }

    /** Every cached embedding is that of its market. */
    ghost predicate Valid()
      reads this
    {
      IsSqrt(sqrt) && forall id :: id in embeddings ==> IsEmbedding(embeddings[id], tokens(id), sqrt)
    }

    constructor (config: DiscoveryConfig, tokens: string -> seq<string>, ln: real -> real, sqrt: real -> real)
      requires IsSqrt(sqrt)
      ensures this.config == config && View() == INITIAL && eventsProcessed == 0 && relationshipsDiscovered == 0
      ensures Valid() && this.tokens == tokens && this.ln == ln && this.sqrt == sqrt
    {
      this.config, this.tokens, this.ln, this.sqrt := config, tokens, ln, sqrt;
      histories, embeddings, joints := map[], map[], map[];
      eventsProcessed, relationshipsDiscovered, sinceEviction, accepted, pushes := 0, 0, 0, 0, 0;
    }

    /** A market's embedding, built on first use and kept. */
    method Embed(id: string) returns (v: Vector)
      requires Valid()
      modifies this`embeddings
      ensures Valid() && IsEmbedding(v, tokens(id), sqrt)
    {
      hide IsEmbedding, IsSqrt;
      if id !in embeddings {
        var built := BuildEmbedding(tokens(id), sqrt);
        embeddings := embeddings[id := built];
      }
      v := embeddings[id];
    }

    /** Visit the other markets in arbitrary order and take the first pairable one. */
    method FindPeer(id: string) returns (peer: Option<string>)
      ensures PeerChoice(config, View(), id, peer)
    {
      var rest := histories.Keys - {id};
      while rest != {}
        invariant rest <= histories.Keys - {id}
        invariant forall p :: p != id && p in histories && p !in rest ==> !Pairable(config, View(), p)
        decreases rest
      {
        var p :| p in rest;
        if |histories[p].prices| >= config.score.minHistoryLen && histories[p].dirty {
          return Some(p);
        }
        rest := rest - {p};
      }
      return None;
    }

    /** Score a joint entry and stamp it when it is announced. */
    method ScoreEntry(pair: Pair, joint: Joint, now: int)
      returns (stamped: Joint, found: Option<RelationshipDiscovered>, ghost score: Score)
      requires Valid()
      modifies this`embeddings
      ensures Valid() && IsScore(score, joint, pair, tokens, config.score.minHistoryLen, ln, sqrt)
      ensures found == Verdict(config.score, pair, joint.samples, joint.counts, joint.lastEmittedAt,
                               score.p, score.s, score.mi, score.similarity, now)
      ensures stamped == Stamped(joint, found, now)
    {
      hide IsEmbedding, IsSqrt, CorrelationsOf, Dot, Verdict, NormalizedMi;
      var a := Embed(pair.0);
      var b := Embed(pair.1);
      var entry := new JointEntry(joint);
      ghost var p, s;
      EmbeddingSorted(a, tokens(pair.0), sqrt);
      EmbeddingSorted(b, tokens(pair.1), sqrt);
      found, p, s := TryRelationship(pair, entry, config.score, a, b, ln, sqrt, now);
      stamped := Joint(entry.samples, entry.counts, entry.lastEmittedAt);
      score := Score(OrZero(p), OrZero(s), NormalizedMi(joint.counts, config.score.minHistoryLen, ln),
                     Clamp(Dot(AsMap(a), AsMap(b)), 0.0, 1.0));
    }

    /** Push a joint observation of two markets, score it, and clear both dirty flags. */
    method PushJoint(id: string, peer: string, prob: real, now: int)
      returns (found: Option<RelationshipDiscovered>, ghost score: Score)
      requires Valid() && id in histories && peer in histories && histories[peer].prices != []
      modifies this`histories, this`joints, this`pushes, this`embeddings
      ensures Valid()
      ensures IsScore(score, Observed(config, old(View()), id, peer, prob), CanonicalPair(id, peer),
                      tokens, config.score.minHistoryLen, ln, sqrt)
      ensures found == Attempted(config, old(View()), id, peer, prob, now, score)
      ensures View() == PairUp(config, old(View()), id, peer, prob, now, score)
    {
      hide IsScore, Verdict, IsEmbedding, IsSqrt, Pushed, Less;
      var peerPrices := histories[peer].prices;
      var peerProb := peerPrices[|peerPrices| - 1];
      var pair := CanonicalPair(id, peer);
      var pa, pb := prob, peerProb;
      if Less(peer, id) {
        pa, pb := peerProb, prob;
      }
      var entry := new JointEntry(if pair in joints then joints[pair] else EMPTY_JOINT);
      entry.Push(pa, pb, config.maxHistoryLen, config.priceChangeThreshold);
      var joint := Joint(entry.samples, entry.counts, entry.lastEmittedAt);
      assert joint == Observed(config, old(View()), id, peer, prob);
      var stamped;
      stamped, found, score := ScoreEntry(pair, joint, now);
      joints := joints[pair := stamped];
      var own := histories[id];
      histories := histories[peer := histories[peer].(dirty := false)];
      histories := histories[id := own.(dirty := false)];
      pushes := pushes + 1;
    }

    /** Count the update and, every `evictionInterval` updates, drop what is stale. */
    method CountAndEvict(now: int)
      requires Valid()
      modifies this`histories, this`joints, this`sinceEviction, this`embeddings
      ensures Valid() && View() == Tick(config, old(View()), now)
    {
      hide IsEmbedding, IsSqrt;
      sinceEviction := sinceEviction + 1;
      if sinceEviction >= config.evictionInterval {
        sinceEviction := 0;
        histories := map id | id in histories && !Stale(config, histories[id], now) :: histories[id];
        embeddings := map id | id in embeddings && id in histories :: embeddings[id];
        joints := map p | p in joints && p.0 in histories && p.1 in histories :: joints[p];
      }
    }

    /** The update's market is seen and, past the noise gate, its price recorded. */
    method RecordPrice(id: string, prob: real, now: int) returns (accepted: bool)
      requires Valid()
      modifies this`histories, this`accepted, this`embeddings
      ensures Valid() && accepted == !Noise(config, old(View()), id, prob)
      ensures View() == if accepted then Recorded(config, old(View()), id, prob, now) else Seen(old(View()), id, now)
    {
      hide IsEmbedding, IsSqrt;
      var h := if id in histories then histories[id].(lastSeen := now) else MarketHistory([], now, false);
      histories := histories[id := h];
      if h.prices != [] && Abs(prob - h.prices[|h.prices| - 1]) < config.minProbChange {
        return false;
      }
      h := h.(prices := PushBounded(h.prices, prob, config.maxHistoryLen), dirty := true);
      histories := histories[id := h];
      this.accepted := this.accepted + 1;
      var _ := Embed(id);
      return true;
    }

    /** Process one market price: at most one joint observation and one announcement. */
    method ProcessMarketUpdate(id: string, prob: real, now: int)
      returns (found: Option<RelationshipDiscovered>, ghost u: MarketUpdate)
      requires ConfigOk(config) && Valid()
      modifies this
      ensures Valid() && eventsProcessed == old(eventsProcessed) + 1
      ensures relationshipsDiscovered == old(relationshipsDiscovered) + if found.Some? then 1 else 0
      ensures u.id == id && u.prob == prob && u.now == now && Applies(config, old(View()), u)
      ensures View() == Next(config, old(View()), u) && found == Announced(config, old(View()), u)
      ensures Pairs(config, old(View()), u) ==>
                IsScore(u.score, Observed(config, Recorded(config, old(View()), id, prob, now), id, u.peer.value, prob),
                        CanonicalPair(id, u.peer.value), tokens, config.score.minHistoryLen, ln, sqrt)
    {
      hide PairUp, Tick, IsScore, Observed, Attempted, IsEmbedding, IsSqrt, Record, Seen, Noise;
      eventsProcessed := eventsProcessed + 1;
      found := None;
      ghost var before := Recorded(config, View(), id, prob, now);
      ghost var peer := PeerExists(config, before, id);
      u := MarketUpdate(id, prob, now, peer, Score(0.0, 0.0, 0.0, 0.0));
      var isNew := RecordPrice(id, prob, now);
      if !isNew || |histories[id].prices| < config.score.minHistoryLen {
        return;
      }
      var chosen := FindPeer(id);
      u := u.(peer := chosen);
      if chosen.Some? {
        ghost var score;
        found, score := PushJoint(id, chosen.value, prob, now);
        u := u.(score := score);
        if found.Some? {
          relationshipsDiscovered := relationshipsDiscovered + 1;
        }
      }
      CountAndEvict(now);
    }
  }

  lemma PeerExists(config: DiscoveryConfig, st: State, id: string) returns (peer: Option<string>)
    ensures PeerChoice(config, st, id, peer)
  {
    if p :| p != id && Pairable(config, st, p) {
      peer := Some(p);
    } else {
      peer := None;
    }
  }
}
