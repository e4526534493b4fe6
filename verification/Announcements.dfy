/** How often a pair is announced, over whole runs of the discovery engine. */
module Announcements {
  import opened Wrappers
  import opened Lex
  import opened JointHistory
  import opened Relationship
  import opened Discovery

  /** Update k of the run announces the pair. */
  ghost predicate Announces(config: DiscoveryConfig, trace: seq<State>, updates: seq<MarketUpdate>, k: nat, pair: Pair)
    requires ConfigOk(config) && IsRun(config, trace, updates) && k < |updates|
  {
    var u := updates[k];
    Announced(config, trace[k], u).Some? && u.peer.Some? && CanonicalPair(u.id, u.peer.value) == pair
  }

  /** The pair's entry is never dropped after update i up to state k. */
  ghost predicate Survives(trace: seq<State>, i: nat, k: nat, pair: Pair) {
    forall j :: i < j <= k && j < |trace| ==> pair in trace[j].joints
  }

  /** Update i is the last announcement of the pair before update k, and its entry is still there. */
  ghost predicate LastAnnounced(config: DiscoveryConfig, trace: seq<State>, updates: seq<MarketUpdate>,
                                i: nat, k: nat, pair: Pair)
    requires ConfigOk(config) && IsRun(config, trace, updates) && k < |trace|
  {
    && i < k && Announces(config, trace, updates, i, pair) && Survives(trace, i, k, pair)
    && forall j: nat :: i < j < k ==> !Announces(config, trace, updates, j, pair)
  }

  // ---------- the stamp of an entry ----------

  function StampOf(st: State, pair: Pair): Option<int> {
    if pair in st.joints then st.joints[pair].lastEmittedAt else None
  }

  lemma TickStamp(config: DiscoveryConfig, st: State, now: int, pair: Pair)
    ensures pair in Tick(config, st, now).joints ==> pair in st.joints
    ensures pair in Tick(config, st, now).joints ==> Tick(config, st, now).joints[pair] == st.joints[pair]
  {
  }

  lemma PairUpStamp(config: DiscoveryConfig, st: State, u: MarketUpdate, pair: Pair)
    requires u.peer.Some? && u.id in st.histories && u.peer.value in st.histories
    requires st.histories[u.peer.value].prices != []
    ensures var found := Attempted(config, st, u.id, u.peer.value, u.prob, u.now, u.score);
      var r := PairUp(config, st, u.id, u.peer.value, u.prob, u.now, u.score);
      StampOf(r, pair) == if found.Some? && CanonicalPair(u.id, u.peer.value) == pair then Some(u.now)
                          else StampOf(st, pair)
  {
    hide Verdict;
  }

  /** One update: a surviving entry carries the time of this announcement or the stamp it had. */
  lemma StampStep(config: DiscoveryConfig, st: State, u: MarketUpdate, pair: Pair)
    requires ConfigOk(config) && Applies(config, st, u) && pair in Next(config, st, u).joints
    ensures StampOf(Next(config, st, u), pair)
         == if Announced(config, st, u).Some? && CanonicalPair(u.id, u.peer.value) == pair then Some(u.now)
            else StampOf(st, pair)
  {
    hide PairUp, Tick, Attempted, Noise;
    if Pairs(config, st, u) {
      var st1 := Recorded(config, st, u.id, u.prob, u.now);
      PairUpStamp(config, st1, u, pair);
      TickStamp(config, PairUp(config, st1, u.id, u.peer.value, u.prob, u.now, u.score), u.now, pair);
    } else {
      TickStamp(config, Recorded(config, st, u.id, u.prob, u.now), u.now, pair);
    }
  }

  /** The last announcement that the pair's entry has survived, looked for from state k backwards. */
  ghost function LastOne(config: DiscoveryConfig, trace: seq<State>, updates: seq<MarketUpdate>, k: nat, pair: Pair)
    : (i: Option<nat>)
    requires ConfigOk(config) && IsRun(config, trace, updates) && k < |trace|
    ensures i.Some? ==> i.value < k
  {
    if k == 0 || pair !in trace[k].joints then None
    else if Announces(config, trace, updates, k - 1, pair) then Some(k - 1)
    else LastOne(config, trace, updates, k - 1, pair)
  }

  /** One state earlier: the entry is still there, and the update between is the last announcement or none. */
  lemma LastAnnouncedStep(config: DiscoveryConfig, trace: seq<State>, updates: seq<MarketUpdate>,
                          k: nat, pair: Pair, i: nat)
    requires ConfigOk(config) && IsRun(config, trace, updates) && 0 < k < |trace| && |trace| == |updates| + 1
    ensures LastAnnounced(config, trace, updates, i, k, pair)
       <==> pair in trace[k].joints
            && if Announces(config, trace, updates, k - 1, pair) then i == k - 1
               else LastAnnounced(config, trace, updates, i, k - 1, pair)
  {
    hide Announces, IsRun, Survives;
    if i < k {
      SurvivesStep(trace, i, k, pair);
    }
    if i == k - 1 {
      NothingBetween(trace, i, pair);
    }
  }

  lemma SurvivesStep(trace: seq<State>, i: nat, k: nat, pair: Pair)
    requires i < k < |trace|
    ensures Survives(trace, i, k, pair) <==> Survives(trace, i, k - 1, pair) && pair in trace[k].joints
  {
  }

  lemma NothingBetween(trace: seq<State>, i: nat, pair: Pair)
    ensures Survives(trace, i, i, pair)
  {
  }

  lemma {:induction false} LastOneIs(config: DiscoveryConfig, trace: seq<State>, updates: seq<MarketUpdate>,
                                     k: nat, pair: Pair, i: nat)
    requires ConfigOk(config) && IsRun(config, trace, updates) && k < |trace|
    ensures LastOne(config, trace, updates, k, pair) == Some(i) <==> LastAnnounced(config, trace, updates, i, k, pair)
  {
    assert |trace| == |updates| + 1;
    if k > 0 {
      hide Announces, IsRun, LastAnnounced;
      LastOneIs(config, trace, updates, k - 1, pair, i);
      LastAnnouncedStep(config, trace, updates, k, pair, i);
    }
  }

  /** In every run, a stamp is the time of the last announcement the entry has survived, or absent. */
  lemma {:induction false} StampMeans(config: DiscoveryConfig, trace: seq<State>, updates: seq<MarketUpdate>,
                                      k: nat, pair: Pair)
    requires ConfigOk(config) && IsRun(config, trace, updates) && k < |trace|
    ensures var i := LastOne(config, trace, updates, k, pair);
      StampOf(trace[k], pair) == if i.Some? then Some(updates[i.value].now) else None
  {
    if k > 0 {
      assert Applies(config, trace[k - 1], updates[k - 1]) && trace[k] == Next(config, trace[k - 1], updates[k - 1]);
      hide Next, Announced, Pairs, Applies, IsRun;
      StampMeans(config, trace, updates, k - 1, pair);
      if pair in trace[k].joints {
        StampStep(config, trace[k - 1], updates[k - 1], pair);
        AnnouncedPairs(config, trace[k - 1], updates[k - 1]);
        LastOneStep(config, trace, updates, k, pair);
      }
    }
  }

  lemma AnnouncedPairs(config: DiscoveryConfig, st: State, u: MarketUpdate)
    requires ConfigOk(config) && Applies(config, st, u)
    ensures Announced(config, st, u).Some? ==> u.peer.Some?
  {
    hide Attempted;
  }

  // ---------- spacing ----------

  /** A pairing that meets every other requirement is announced if and only if the last announcement
      its entry has survived is not between 0 and `edge_ttl_secs` seconds old. */
  lemma AnnouncedIff(config: DiscoveryConfig, trace: seq<State>, updates: seq<MarketUpdate>, k: nat)
    requires ConfigOk(config) && IsRun(config, trace, updates) && k < |updates|
    requires Pairs(config, trace[k], updates[k]) && Deserving(config, trace[k], updates[k])
    ensures var pair := CanonicalPair(updates[k].id, updates[k].peer.value);
      Announces(config, trace, updates, k, pair)
      <==> !exists i: nat :: LastAnnounced(config, trace, updates, i, k, pair)
                             && 0 <= updates[k].now - updates[i].now < config.score.edgeTtlSecs
  {
    var u := updates[k];
    var pair := CanonicalPair(u.id, u.peer.value);
    StampMeans(config, trace, updates, k, pair);
    GateOfUpdate(config, trace[k], u);
    hide LastAnnounced, Announced, Deserving, Pairs, Applies;
    forall i: nat ensures LastOne(config, trace, updates, k, pair) == Some(i)
      <==> LastAnnounced(config, trace, updates, i, k, pair) {
      LastOneIs(config, trace, updates, k, pair, i);
    }
  }

  /** The entry's window is long enough and its score sufficient. */
  ghost predicate Deserving(config: DiscoveryConfig, st: State, u: MarketUpdate)
    requires Applies(config, st, u) && ConfigOk(config) && Pairs(config, st, u)
  {
    var joint := Observed(config, Recorded(config, st, u.id, u.prob, u.now), u.id, u.peer.value, u.prob);
    Worthy(config.score, joint.samples, u.score.p, u.score.s, u.score.mi, u.score.similarity)
  }

  lemma GateOfUpdate(config: DiscoveryConfig, st: State, u: MarketUpdate)
    requires ConfigOk(config) && Applies(config, st, u) && Pairs(config, st, u)
    ensures Announced(config, st, u).Some?
       <==> Deserving(config, st, u)
            && !HeldBack(StampOf(st, CanonicalPair(u.id, u.peer.value)), config.score.edgeTtlSecs, u.now)
  {
    hide Strength;
  }

  lemma AnnouncedGate(config: DiscoveryConfig, st: State, u: MarketUpdate)
    requires ConfigOk(config) && Applies(config, st, u) && Announced(config, st, u).Some?
    ensures u.peer.Some?
    ensures !HeldBack(StampOf(st, CanonicalPair(u.id, u.peer.value)), config.score.edgeTtlSecs, u.now)
  {
    GateOfUpdate(config, st, u);
  }

  /** For consecutive announcements of a surviving entry, the spacing holds exactly when the clock has not gone back. */
  lemma SpacingIff(config: DiscoveryConfig, trace: seq<State>, updates: seq<MarketUpdate>, i: nat, k: nat, pair: Pair)
    requires ConfigOk(config) && IsRun(config, trace, updates) && k < |updates|
    requires LastAnnounced(config, trace, updates, i, k, pair) && Announces(config, trace, updates, k, pair)
    ensures updates[k].now - updates[i].now >= config.score.edgeTtlSecs <==> updates[k].now >= updates[i].now
  {
    StampMeans(config, trace, updates, k, pair);
    LastOneIs(config, trace, updates, k, pair, i);
    AnnouncedGate(config, trace[k], updates[k]);
  }

  /** While the clock does not go back and the entry survives, any two announcements are a full
      time-to-live apart: closer ones are possible only across an eviction. */
  lemma AnnouncementsSpaced(config: DiscoveryConfig, trace: seq<State>, updates: seq<MarketUpdate>,
                            i: nat, k: nat, pair: Pair)
    requires ConfigOk(config) && IsRun(config, trace, updates) && i < k < |updates|
    requires Announces(config, trace, updates, i, pair) && Announces(config, trace, updates, k, pair)
    requires Survives(trace, i, k, pair)
    requires forall m, n :: i <= m <= n <= k ==> updates[m].now <= updates[n].now
    ensures updates[k].now - updates[i].now >= config.score.edgeTtlSecs
  {
    LatestBefore(config, trace, updates, i, k, pair);
    var m := LastOne(config, trace, updates, k, pair).value;
    LastOneIs(config, trace, updates, k, pair, m);
    SpacingIff(config, trace, updates, m, k, pair);
  }

  lemma LastOneStep(config: DiscoveryConfig, trace: seq<State>, updates: seq<MarketUpdate>, k: nat, pair: Pair)
    requires ConfigOk(config) && IsRun(config, trace, updates) && 0 < k < |trace| && pair in trace[k].joints
    ensures LastOne(config, trace, updates, k, pair)
         == if Announces(config, trace, updates, k - 1, pair) then Some(k - 1)
            else LastOne(config, trace, updates, k - 1, pair)
  {
    assert |trace| == |updates| + 1;
    hide Announces, IsRun;
  }

  lemma {:induction false} LatestBefore(config: DiscoveryConfig, trace: seq<State>, updates: seq<MarketUpdate>,
                                        i: nat, k: nat, pair: Pair)
    requires ConfigOk(config) && IsRun(config, trace, updates) && i < k < |trace| && |trace| == |updates| + 1
    requires Announces(config, trace, updates, i, pair) && Survives(trace, i, k, pair)
    ensures LastOne(config, trace, updates, k, pair).Some? && i <= LastOne(config, trace, updates, k, pair).value
    decreases k
  {
    hide Announces, IsRun, LastOne;
    assert pair in trace[k].joints && Survives(trace, i, k - 1, pair);
    hide Survives;
    LastOneStep(config, trace, updates, k, pair);
    if i == k - 1 {
    } else if !Announces(config, trace, updates, k - 1, pair) {
      LatestBefore(config, trace, updates, i, k - 1, pair);
    }
  }

  // ---------- across an eviction ----------

  /** Configurations for a short run: two samples suffice, every price counts, eviction follows every update. */
  predicate Short(config: DiscoveryConfig) {
    && ConfigOk(config) && config.score.minHistoryLen == 2 && config.score.minRelationshipScore == 0.0
    && config.minProbChange == 0.0 && config.evictionInterval == 1 && config.marketTtlSecs > 0
  }

  predicate Warm(st: State, id: string) {
    id in st.histories && |st.histories[id].prices| >= 2
  }

  predicate SeenAt(st: State, id: string, dirty: bool, t: int) {
    id in st.histories && st.histories[id].dirty == dirty && st.histories[id].lastSeen == t
  }

  /** Only market a is known, with fresh data. */
  predicate Alone(st: State, a: string, t: int) {
    st.histories.Keys == {a} && Warm(st, a) && SeenAt(st, a, true, t) && st.joints == map[]
  }

  /** Both markets are known and warm, a as given and p paired; their entry holds n samples. */
  predicate Both(st: State, a: string, p: string, dirty: bool, n: nat, stamp: Option<int>, t: int) {
    && st.histories.Keys == {a, p} && Warm(st, a) && Warm(st, p)
    && SeenAt(st, a, dirty, t) && SeenAt(st, p, false, t)
    && st.joints.Keys == {CanonicalPair(a, p)} && |st.joints[CanonicalPair(a, p)].samples| == n
    && st.joints[CanonicalPair(a, p)].lastEmittedAt == stamp
  }

  ghost predicate Steps(config: DiscoveryConfig, st: State, u: MarketUpdate, next: State)
    requires ConfigOk(config)
  {
    Applies(config, st, u) && next == Next(config, st, u)
  }

  lemma FirstPrice(config: DiscoveryConfig, a: string, x: real, t: int, score: Score) returns (next: State)
    requires Short(config)
    ensures Steps(config, INITIAL, MarketUpdate(a, x, t, None, score), next)
    ensures next.histories == map[a := MarketHistory([x], t, true)] && next.joints == map[]
  {
    assert PushBounded([], x, config.maxHistoryLen) == [x];
    next := Next(config, INITIAL, MarketUpdate(a, x, t, None, score));
  }

  lemma SecondPrice(config: DiscoveryConfig, st: State, a: string, x: real, t: int, score: Score) returns (next: State)
    requires Short(config) && st.histories == map[a := MarketHistory([x], t, true)] && st.joints == map[]
    ensures Steps(config, st, MarketUpdate(a, x, t, None, score), next) && Alone(next, a, t)
  {
    next := Next(config, st, MarketUpdate(a, x, t, None, score));
  }

  /** A second market's first price: too early to pair. */
  lemma PeerAppears(config: DiscoveryConfig, st: State, a: string, p: string, x: real, t: int, score: Score)
    returns (next: State)
    requires Short(config) && a != p && Alone(st, a, t)
    ensures Steps(config, st, MarketUpdate(p, x, t, Some(a), score), next)
    ensures next.histories == st.histories[p := MarketHistory([x], t, true)] && next.joints == map[]
  {
    assert PushBounded([], x, config.maxHistoryLen) == [x];
    next := Next(config, st, MarketUpdate(p, x, t, Some(a), score));
  }

  lemma OneOrder(a: string, p: string)
    requires a != p
    ensures CanonicalPair(a, p) == CanonicalPair(p, a)
  {
    Trichotomy(a, p);
  }

  /** The recorded price of a market that is already known, past a noise gate of zero. */
  lemma RecordedAgain(config: DiscoveryConfig, st: State, id: string, x: real, t: int)
    requires Short(config) && id in st.histories && st.histories[id].prices != []
    ensures !Noise(config, st, id, x)
    ensures var r := Recorded(config, st, id, x, t);
      && r.joints == st.joints && r.histories.Keys == st.histories.Keys
      && Warm(r, id) && SeenAt(r, id, true, t)
      && forall o :: o in st.histories && o != id ==> r.histories[o] == st.histories[o]
  {
  }

  lemma NothingStale(config: DiscoveryConfig, st: State, t: int)
    requires Short(config) && forall id :: id in st.histories ==> st.histories[id].lastSeen == t
    requires forall pair :: pair in st.joints ==> pair.0 in st.histories && pair.1 in st.histories
    ensures Tick(config, st, t).histories == st.histories && Tick(config, st, t).joints == st.joints
  {
    assert forall id :: id in st.histories ==> !Stale(config, st.histories[id], t);
  }

  /** An entry of the two markets with n samples and no stamp yet. */
  predicate Young(st: State, a: string, p: string, n: nat) {
    if n == 0 then st.joints == map[] else
      && st.joints.Keys == {CanonicalPair(a, p)} && |st.joints[CanonicalPair(a, p)].samples| == n
      && st.joints[CanonicalPair(a, p)].lastEmittedAt == None
  }

  lemma EntryGrows(config: DiscoveryConfig, st: State, a: string, p: string, x: real, t: int, score: Score, n: nat)
    requires Short(config) && a != p && n < 2 && Young(st, a, p, n)
    requires a in st.histories && st.histories[a].prices != []
    ensures |Observed(config, st, p, a, x).samples| == n + 1 && Observed(config, st, p, a, x).lastEmittedAt == None
    ensures Attempted(config, st, p, a, x, t, score).Some? <==> n == 1
  {
    OneOrder(a, p);
    hide Less, MoveBetween, Strength;
    assert Strength(config.score, score.p, score.s, score.mi, score.similarity) >= 0.0 by {
      StrengthNonNegative(config.score, score);
    }
  }

  lemma StrengthNonNegative(config: ScoreConfig, score: Score)
    ensures Strength(config, score.p, score.s, score.mi, score.similarity) >= 0.0
  {
  }

  lemma PairUpShape(config: DiscoveryConfig, st: State, a: string, p: string, x: real, t: int, score: Score, n: nat)
    requires Short(config) && a != p && n < 2 && Young(st, a, p, n)
    requires st.histories.Keys == {a, p} && Warm(st, a) && Warm(st, p)
    requires st.histories[a].lastSeen == t && st.histories[p].lastSeen == t
    ensures Both(PairUp(config, st, p, a, x, t, score), a, p, false, n + 1, if n == 1 then Some(t) else None, t)
  {
    OneOrder(a, p);
    EntryGrows(config, st, a, p, x, t, score, n);
    hide Observed, Attempted, Less;
  }

  lemma BothFresh(config: DiscoveryConfig, st: State, a: string, p: string, dirty: bool, n: nat, stamp: Option<int>,
                  t: int)
    requires Short(config) && Both(st, a, p, dirty, n, stamp, t)
    ensures Both(Tick(config, st, t), a, p, dirty, n, stamp, t)
  {
    var pair := CanonicalPair(a, p);
    assert pair.0 in st.histories && pair.1 in st.histories;
    NothingStale(config, st, t);
  }

  /** The two markets pair: their entry grows to n + 1 samples, and two samples are announced. */
  lemma PairOnce(config: DiscoveryConfig, st: State, a: string, p: string, x: real, t: int, score: Score, n: nat)
    returns (next: State)
    requires Short(config) && a != p && st.histories.Keys == {a, p} && n < 2 && Young(st, a, p, n)
    requires Warm(st, a) && SeenAt(st, a, true, t) && st.histories[p].prices != [] && st.histories[p].lastSeen == t
    ensures var u := MarketUpdate(p, x, t, Some(a), score);
      && Steps(config, st, u, next) && Both(next, a, p, false, n + 1, if n == 1 then Some(t) else None, t)
      && (Announced(config, st, u).Some? <==> n == 1)
  {
    var u := MarketUpdate(p, x, t, Some(a), score);
    RecordedAgain(config, st, p, x, t);
    var st1 := Recorded(config, st, p, x, t);
    EntryGrows(config, st1, a, p, x, t, score, n);
    PairUpShape(config, st1, a, p, x, t, score, n);
    BothFresh(config, PairUp(config, st1, p, a, x, t, score), a, p, false, n + 1, if n == 1 then Some(t) else None, t);
    hide Recorded, Noise, PairUp, Tick, Attempted, Both, Young;
    next := Next(config, st, u);
  }

  /** Market a has news while p has none: nothing to pair. */
  lemma PriceAlone(config: DiscoveryConfig, st: State, a: string, p: string, x: real, t: int, score: Score)
    returns (next: State)
    requires Short(config) && a != p && Both(st, a, p, false, 1, None, t)
    ensures Steps(config, st, MarketUpdate(a, x, t, None, score), next) && Both(next, a, p, true, 1, None, t)
  {
    RecordedAgain(config, st, a, x, t);
    hide Recorded, Noise;
    NothingStale(config, Recorded(config, st, a, x, t), t);
    next := Next(config, st, MarketUpdate(a, x, t, None, score));
  }

  lemma OnlyOneLeft(config: DiscoveryConfig, st: State, a: string, p: string, later: int)
    requires Short(config) && a != p && st.histories.Keys == {a, p} && Warm(st, a)
    requires SeenAt(st, a, true, later) && later - st.histories[p].lastSeen >= config.marketTtlSecs
    requires st.joints.Keys == {CanonicalPair(a, p)}
    ensures Alone(Tick(config, st, later), a, later)
  {
    assert Stale(config, st.histories[p], later) && !Stale(config, st.histories[a], later);
    assert CanonicalPair(a, p).0 == p || CanonicalPair(a, p).1 == p;
  }

  /** Their entry has been announced; a was seen at s and p, silent since, at t. */
  predicate Apart(st: State, a: string, p: string, t: int, s: int) {
    && st.histories.Keys == {a, p} && Warm(st, a) && SeenAt(st, a, false, s) && SeenAt(st, p, false, t)
    && st.joints.Keys == {CanonicalPair(a, p)}
  }

  lemma PairUpLater(config: DiscoveryConfig, st: State, a: string, p: string, x: real, t: int, s: int, score: Score)
    requires Short(config) && a != p && Young(st, p, a, 1)
    requires st.histories.Keys == {a, p} && Warm(st, a) && Warm(st, p)
    requires st.histories[a].lastSeen == s && st.histories[p].lastSeen == t
    ensures Apart(PairUp(config, st, a, p, x, s, score), a, p, t, s)
  {
    OneOrder(a, p);
    hide Observed, Attempted, Less;
  }

  lemma ApartFresh(config: DiscoveryConfig, st: State, a: string, p: string, t: int, s: int)
    requires Short(config) && Apart(st, a, p, t, s) && 0 <= s - t < config.marketTtlSecs
    ensures Apart(Tick(config, st, s), a, p, t, s)
  {
    assert !Stale(config, st.histories[a], s) && !Stale(config, st.histories[p], s);
    var pair := CanonicalPair(a, p);
    assert pair.0 in st.histories && pair.1 in st.histories;
  }

  lemma LeftDirty(st: State, a: string, p: string, t: int)
    requires Both(st, p, a, true, 1, None, t)
    ensures st.histories.Keys == {a, p} && Warm(st, a) && Warm(st, p) && SeenAt(st, p, true, t)
    ensures st.histories[a].lastSeen == t && Young(st, p, a, 1)
  {
  }

  /** News of p from time t waits for a partner until a has news at time s: their entry is announced then. */
  lemma PairLater(config: DiscoveryConfig, st: State, a: string, p: string, x: real, t: int, s: int, score: Score)
    returns (next: State)
    requires Short(config) && a != p && Both(st, p, a, true, 1, None, t) && 0 <= s - t < config.marketTtlSecs
    ensures var u := MarketUpdate(a, x, s, Some(p), score);
      Steps(config, st, u, next) && Apart(next, a, p, t, s) && Announced(config, st, u).Some?
  {
    var u := MarketUpdate(a, x, s, Some(p), score);
    LeftDirty(st, a, p, t);
    hide Both;
    RecordedAgain(config, st, a, x, s);
    var st1 := Recorded(config, st, a, x, s);
    assert Young(st1, p, a, 1);
    EntryGrows(config, st1, p, a, x, s, score, 1);
    PairUpLater(config, st1, a, p, x, t, s, score);
    ApartFresh(config, PairUp(config, st1, a, p, x, s, score), a, p, t, s);
    hide Recorded, Noise, PairUp, Tick, Attempted, Apart, Young;
    next := Next(config, st, u);
  }

  /** When p has been silent for the market time-to-live, the next update of a evicts it, and their entry with it. */
  lemma PeerEvicted(config: DiscoveryConfig, st: State, a: string, p: string, x: real, t: int, s: int, score: Score)
    returns (next: State)
    requires Short(config) && a != p && Apart(st, a, p, t, s)
    ensures Steps(config, st, MarketUpdate(a, x, t + config.marketTtlSecs, None, score), next)
    ensures Alone(next, a, t + config.marketTtlSecs)
  {
    var later := t + config.marketTtlSecs;
    RecordedAgain(config, st, a, x, later);
    OnlyOneLeft(config, Recorded(config, st, a, x, later), a, p, later);
    hide Recorded, Noise, Tick, Alone;
    next := Next(config, st, MarketUpdate(a, x, later, None, score));
  }

  // ---------- the run ----------

  datatype Course = Course(trace: seq<State>, updates: seq<MarketUpdate>)

  ghost predicate Runs(config: DiscoveryConfig, c: Course) {
    ConfigOk(config) && |c.trace| == |c.updates| + 1 && IsRun(config, c.trace, c.updates)
  }

  ghost function Last(c: Course): State
    requires c.trace != []
  {
    c.trace[|c.trace| - 1]
  }

  function Then(c: Course, u: MarketUpdate, next: State): Course {
    Course(c.trace + [next], c.updates + [u])
  }

  lemma Extend(config: DiscoveryConfig, c: Course, u: MarketUpdate, next: State)
    requires Runs(config, c) && Steps(config, Last(c), u, next)
    ensures Runs(config, Then(c, u, next)) && Last(Then(c, u, next)) == next
  {
    hide Applies, Next;
    var d := Then(c, u, next);
    forall k | 0 <= k < |d.updates|
      ensures Applies(config, d.trace[k], d.updates[k]) && d.trace[k + 1] == Next(config, d.trace[k], d.updates[k]) {
      if k < |c.updates| {
        assert d.trace[k] == c.trace[k] && d.trace[k + 1] == c.trace[k + 1] && d.updates[k] == c.updates[k];
      }
    }
  }

  /** From a alone at time t: p appears, and after two pairings the pair is announced, at time t. */
  lemma Meet(config: DiscoveryConfig, c: Course, a: string, p: string, x: real, t: int,
             score: Score) returns (d: Course)
    requires Short(config) && a != p && Runs(config, c) && Alone(Last(c), a, t)
    ensures Runs(config, d) && Both(Last(d), a, p, false, 2, Some(t), t)
    ensures |d.updates| == |c.updates| + 4 && c.trace <= d.trace && c.updates <= d.updates
    ensures forall k :: |c.updates| <= k < |d.updates| ==> d.updates[k].now == t
    ensures Announces(config, d.trace, d.updates, |c.updates| + 3, CanonicalPair(a, p))
  {
    hide Alone, Both, Announced, IsRun, Steps;
    OneOrder(a, p);
    AloneFacts(Last(c), a, t);
    var s1 := PeerAppears(config, Last(c), a, p, x, t, score);
    Extend(config, c, MarketUpdate(p, x, t, Some(a), score), s1);
    var c1 := Then(c, MarketUpdate(p, x, t, Some(a), score), s1);
    var s2 := PairOnce(config, s1, a, p, x, t, score, 0);
    Extend(config, c1, MarketUpdate(p, x, t, Some(a), score), s2);
    var c2 := Then(c1, MarketUpdate(p, x, t, Some(a), score), s2);
    var s3 := PriceAlone(config, s2, a, p, x, t, score);
    Extend(config, c2, MarketUpdate(a, x, t, None, score), s3);
    var c3 := Then(c2, MarketUpdate(a, x, t, None, score), s3);
    BothFacts(s3, a, p, t);
    var s4 := PairOnce(config, s3, a, p, x, t, score, 1);
    Extend(config, c3, MarketUpdate(p, x, t, Some(a), score), s4);
    d := Then(c3, MarketUpdate(p, x, t, Some(a), score), s4);
    assert d.trace[|c.updates| + 3] == s3;
  }

  lemma AloneFacts(st: State, a: string, t: int)
    requires Alone(st, a, t)
    ensures st.histories.Keys == {a} && Warm(st, a) && SeenAt(st, a, true, t)
  {
  }

  lemma BothFacts(st: State, a: string, p: string, t: int)
    requires Both(st, a, p, true, 1, None, t)
    ensures st.histories.Keys == {a, p} && Warm(st, a) && SeenAt(st, a, true, t)
    ensures st.histories[p].prices != [] && st.histories[p].lastSeen == t
    ensures Young(st, a, p, 1)
  {
  }

  lemma Open(config: DiscoveryConfig, a: string, x: real, t: int, score: Score) returns (c: Course)
    requires Short(config)
    ensures Runs(config, c) && Alone(Last(c), a, t)
    ensures |c.updates| == 2 && forall k :: 0 <= k < 2 ==> c.updates[k].now == t
  {
    hide Alone, Steps;
    c := Course([INITIAL], []);
    var u := MarketUpdate(a, x, t, None, score);
    var s0 := FirstPrice(config, a, x, t, score);
    Extend(config, c, u, s0);
    c := Then(c, u, s0);
    var s1 := SecondPrice(config, s0, a, x, t, score);
    Extend(config, c, u, s1);
    c := Then(c, u, s1);
  }

  /** From a alone at time t: p appears, pairs once with a, and then has news that a does not answer before
      time s, when the pair is announced. */
  lemma MeetLate(config: DiscoveryConfig, c: Course, a: string, p: string, x: real, t: int, s: int, score: Score)
    returns (d: Course)
    requires Short(config) && a != p && Runs(config, c) && Alone(Last(c), a, t) && 0 <= s - t < config.marketTtlSecs
    ensures Runs(config, d) && Apart(Last(d), a, p, t, s)
    ensures |d.updates| == |c.updates| + 4 && c.trace <= d.trace && c.updates <= d.updates
    ensures forall k :: |c.updates| <= k < |c.updates| + 3 ==> d.updates[k].now == t
    ensures d.updates[|c.updates| + 3].now == s
    ensures Announces(config, d.trace, d.updates, |c.updates| + 3, CanonicalPair(a, p))
  {
    hide Alone, Both, Apart, Announced, IsRun, Steps;
    OneOrder(a, p);
    AloneFacts(Last(c), a, t);
    var s1 := PeerAppears(config, Last(c), a, p, x, t, score);
    Extend(config, c, MarketUpdate(p, x, t, Some(a), score), s1);
    var c1 := Then(c, MarketUpdate(p, x, t, Some(a), score), s1);
    var s2 := PairOnce(config, s1, a, p, x, t, score, 0);
    Extend(config, c1, MarketUpdate(p, x, t, Some(a), score), s2);
    var c2 := Then(c1, MarketUpdate(p, x, t, Some(a), score), s2);
    BothWays(s2, a, p, t);
    var s3 := PriceAlone(config, s2, p, a, x, t, score);
    Extend(config, c2, MarketUpdate(p, x, t, None, score), s3);
    var c3 := Then(c2, MarketUpdate(p, x, t, None, score), s3);
    var s4 := PairLater(config, s3, a, p, x, t, s, score);
    Extend(config, c3, MarketUpdate(a, x, s, Some(p), score), s4);
    d := Then(c3, MarketUpdate(a, x, s, Some(p), score), s4);
    assert d.trace[|c.updates| + 3] == s3;
  }

  lemma BothWays(st: State, a: string, p: string, t: int)
    requires a != p && Both(st, a, p, false, 1, None, t)
    ensures Both(st, p, a, false, 1, None, t)
  {
    OneOrder(a, p);
  }

  /** The clock never goes back, and still the same pair is announced twice `gap` seconds apart, for any gap from
      one second to `market_ttl_secs`, whatever `edge_ttl_secs` is and whatever the scores are: p's news waits for
      a until shortly before p counts as stale, and then p is evicted, the pair's stamp with it. */
  lemma EvictionForgets(config: DiscoveryConfig, a: string, p: string, x: real, t: int, gap: int, score: Score)
    returns (c: Course, i: nat, k: nat)
    requires Short(config) && a != p && 1 <= gap <= config.marketTtlSecs
    ensures Runs(config, c) && i < k < |c.updates|
    ensures Announces(config, c.trace, c.updates, i, CanonicalPair(a, p))
    ensures Announces(config, c.trace, c.updates, k, CanonicalPair(a, p))
    ensures c.updates[k].now - c.updates[i].now == gap
    ensures forall m, n :: 0 <= m <= n < |c.updates| ==> c.updates[m].now <= c.updates[n].now
  {
    hide Alone, Both, Apart, Announced, Steps, IsRun, Announces;
    var later := t + config.marketTtlSecs;
    var opening := Open(config, a, x, t, score);
    var early := MeetLate(config, opening, a, p, x, t, later - gap, score);
    var s2 := PeerEvicted(config, Last(early), a, p, x, t, later - gap, score);
    Extend(config, early, MarketUpdate(a, x, later, None, score), s2);
    var middle := Then(early, MarketUpdate(a, x, later, None, score), s2);
    c := Meet(config, middle, a, p, x, later, score);
    i, k := 5, 10;
    AnnouncesPrefix(config, early, c, i, CanonicalPair(a, p));
    assert forall n :: 0 <= n < |c.updates| ==>
      c.updates[n].now == if n < 5 then t else if n == 5 then later - gap else later;
  }

  lemma AnnouncesPrefix(config: DiscoveryConfig, c: Course, d: Course, i: nat, pair: Pair)
    requires Runs(config, c) && Runs(config, d) && c.trace <= d.trace && c.updates <= d.updates && i < |c.updates|
    requires Announces(config, c.trace, c.updates, i, pair)
    ensures Announces(config, d.trace, d.updates, i, pair)
  {
    hide Announced;
    assert |c.trace| == |c.updates| + 1;
    assert d.trace[i] == c.trace[i] && d.updates[i] == c.updates[i];
  }
}
