/** Limits and order independence of the batch allocation. */
module AllocatorTheorems {
  import opened Sums
  import opened Common
  import opened Allocator

  // ---------- limits ----------

  ghost predicate ConfigOk(config: AllocationConfig) {
    config.maxAllocationPerNiche >= 0.0
    && config.correlationPenaltyFactor >= 0.0 && config.defaultClusterCorrelation >= 0.0
  }

  lemma PenaltyNonNegative(config: AllocationConfig, nicheSoFar: real)
    requires ConfigOk(config) && nicheSoFar >= 0.0
    ensures Penalty(config, nicheSoFar) >= 0.0
  {
    NonNegativeProduct(config.correlationPenaltyFactor, config.defaultClusterCorrelation);
    if config.maxAllocationPerNiche > 0.0 {
      assert nicheSoFar / config.maxAllocationPerNiche >= 0.0;
    }
    NonNegativeProduct(config.correlationPenaltyFactor * config.defaultClusterCorrelation,
                       Utilization(config, nicheSoFar));
  }

  lemma AllocationWithinCaps(config: AllocationConfig, budget: real, used: real, nicheSoFar: real, request: real)
    requires ConfigOk(config) && nicheSoFar >= 0.0
    requires Allocation(config, budget, used, nicheSoFar, request) > 0.0
    ensures var alloc := Allocation(config, budget, used, nicheSoFar, request);
      && alloc <= request && alloc <= config.maxAllocationPerMarket
      && nicheSoFar + alloc <= config.maxAllocationPerNiche && used + alloc <= budget
  {
    PenaltyNonNegative(config, nicheSoFar);
    hide Times;
    TimesShrinks(Capped(config, budget, used, nicheSoFar, request), Max(1.0 - Penalty(config, nicheSoFar), 0.0));
  }

  /** Every grant is positive, within its request and the market cap. */
  ghost predicate GrantOk(config: AllocationConfig, ranked: seq<Scored>, g: OptimizedSignal) {
    exists k :: 0 <= k < |ranked| && GrantFor(config, ranked[k], g)
  }

  ghost predicate GrantFor(config: AllocationConfig, x: Scored, g: OptimizedSignal) {
    && g.signal == x.signal.(positionFraction := g.signal.positionFraction)
    && g.riskAdjustedEv == x.raev
    && 0.0 < g.signal.positionFraction <= x.signal.positionFraction
    && g.signal.positionFraction <= config.maxAllocationPerMarket
  }

  lemma {:induction false} GreedyWithinLimits(config: AllocationConfig, budget: real, ranked: seq<Scored>)
    requires ConfigOk(config) && budget >= 0.0
    ensures var out := Greedy(config, budget, ranked);
      && (forall i :: 0 <= i < |out| ==> GrantOk(config, ranked, out[i]))
      && 0.0 <= Used(out) <= budget
      && forall niche :: 0.0 <= UsedInNiche(out, niche) <= config.maxAllocationPerNiche
  {
    hide Allocation, Used, UsedInNiche;
    UsedNothing();
    if ranked != [] {
      var front, x := ranked[..|ranked| - 1], ranked[|ranked| - 1];
      GreedyWithinLimits(config, budget, front);
      var out := Greedy(config, budget, front);
      forall i | 0 <= i < |out| ensures GrantOk(config, ranked, out[i]) {
        var k :| 0 <= k < |front| && GrantFor(config, front[k], out[i]);
        assert GrantFor(config, ranked[k], out[i]);
      }
      var nicheSoFar := UsedInNiche(out, ClusterId(x.signal.marketId));
      var alloc := Allocation(config, budget, Used(out), nicheSoFar, x.signal.positionFraction);
      if alloc > 0.0 {
        var g := Granted(config, x, nicheSoFar, alloc);
        AllocationWithinCaps(config, budget, Used(out), nicheSoFar, x.signal.positionFraction);
        UsedSnoc(out, g);
        assert Greedy(config, budget, ranked) == out + [g];
        assert GrantFor(config, ranked[|ranked| - 1], g);
      } else {
        assert Greedy(config, budget, ranked) == out;
      }
    }
  }

  ghost predicate FollowsRanking(ranked: seq<Scored>, out: seq<OptimizedSignal>) {
    && (forall i, j :: 0 <= i < j < |out| ==> out[i].riskAdjustedEv >= out[j].riskAdjustedEv)
    && (forall i, j :: 0 <= i < j < |out| ==> out[i].signal.marketId != out[j].signal.marketId)
    && (forall i :: 0 <= i < |out| ==> FromRank(ranked, out[i]))
  }

  /** The grants follow the ranking: same order, at most one per ranked signal. */
  lemma {:induction false} GreedyKeepsOrder(config: AllocationConfig, budget: real, ranked: seq<Scored>)
    requires OnePerMarket(ranked) && Descending(ranked)
    ensures FollowsRanking(ranked, Greedy(config, budget, ranked))
  {
    hide Allocation;
    if ranked != [] {
      var front, x := ranked[..|ranked| - 1], ranked[|ranked| - 1];
      GreedyKeepsOrder(config, budget, front);
      var out := Greedy(config, budget, front);
      var nicheSoFar := UsedInNiche(out, ClusterId(x.signal.marketId));
      var alloc := Allocation(config, budget, Used(out), nicheSoFar, x.signal.positionFraction);
      FollowsOn(ranked, out, Granted(config, x, nicheSoFar, alloc));
    }
  }

  lemma FollowsOn(ranked: seq<Scored>, out: seq<OptimizedSignal>, g: OptimizedSignal)
    requires ranked != [] && OnePerMarket(ranked) && Descending(ranked)
    requires FollowsRanking(ranked[..|ranked| - 1], out) && IsGrantOf(ranked[|ranked| - 1], g)
    ensures FollowsRanking(ranked, out) && FollowsRanking(ranked, out + [g])
  {
    var front, x := ranked[..|ranked| - 1], ranked[|ranked| - 1];
    forall i | 0 <= i < |out|
      ensures FromRank(ranked, out[i])
      ensures out[i].riskAdjustedEv >= x.raev && out[i].signal.marketId != x.signal.marketId
    {
      assert FromRank(front, out[i]);
      var k :| 0 <= k < |front| && IsGrantOf(front[k], out[i]);
      assert IsGrantOf(ranked[k], out[i]);
    }
    assert IsGrantOf(ranked[|ranked| - 1], g);
  }

  ghost predicate IsGrantOf(x: Scored, g: OptimizedSignal) {
    g.riskAdjustedEv == x.raev && g.signal.marketId == x.signal.marketId
  }

  ghost predicate FromRank(ranked: seq<Scored>, g: OptimizedSignal) {
    exists k :: 0 <= k < |ranked| && IsGrantOf(ranked[k], g)
  }

  /** The contract of a batch: one grant per market, for that market's best signal, in non-increasing score order,
      within the request, market, niche and budget limits. */
  lemma BatchWithinLimits(config: AllocationConfig, capitalAvailable: real, signals: seq<TradeSignal>,
                          ranked: seq<Scored>, out: seq<OptimizedSignal>)
    requires ConfigOk(config) && config.totalCapital >= 0.0 && capitalAvailable >= 0.0
    requires IsRanking(ranked, signals) && out == Greedy(config, Times(config.totalCapital, capitalAvailable), ranked)
    ensures forall i :: 0 <= i < |out| ==> GrantedFor(config, signals, out[i])
    ensures forall i, j :: 0 <= i < j < |out| ==>
      out[i].signal.marketId != out[j].signal.marketId && out[i].riskAdjustedEv >= out[j].riskAdjustedEv
    ensures Used(out) <= config.totalCapital * capitalAvailable
    ensures forall niche :: UsedInNiche(out, niche) <= config.maxAllocationPerNiche
  {
    hide Greedy;
    NonNegativeProduct(config.totalCapital, capitalAvailable);
    var budget := Times(config.totalCapital, capitalAvailable);
    GreedyWithinLimits(config, budget, ranked);
    GreedyKeepsOrder(config, budget, ranked);
    forall i | 0 <= i < |out| ensures GrantedFor(config, signals, out[i]) {
      var k :| 0 <= k < |ranked| && GrantFor(config, ranked[k], out[i]);
      assert ranked[k] in ranked;
      var j :| BestAt(signals, j) && ranked[k] == Score(signals[j]);
      assert BestAt(signals, j) && GrantFor(config, Score(signals[j]), out[i]);
    }
  }

  ghost predicate GrantedFor(config: AllocationConfig, signals: seq<TradeSignal>, g: OptimizedSignal) {
    exists j :: BestAt(signals, j) && GrantFor(config, Score(signals[j]), g)
  }

  // ---------- order independence ----------

  ghost predicate StrictlyDescending(r: seq<Scored>) {
    forall i, j :: 0 <= i < j < |r| ==> r[i].raev > r[j].raev
  }

  /** A strictly descending list is determined by its members. */
  lemma {:induction false} StrictListUnique(r1: seq<Scored>, r2: seq<Scored>)
    requires StrictlyDescending(r1) && StrictlyDescending(r2)
    requires forall x :: x in r1 <==> x in r2
    ensures r1 == r2
  {
    assert |r2| > 0 ==> r2[0] in r2;
    if r1 != [] {
      assert r1[0] in r2;
      var a :| 0 <= a < |r2| && r2[a] == r1[0];
      assert r2[0] in r1;
      var b :| 0 <= b < |r1| && r1[b] == r2[0];
      assert r1[0] == r2[0];
      forall x ensures x in r1[1..] <==> x in r2[1..] {
        TailMembers(r1, x);
        TailMembers(r2, x);
      }
      StrictListUnique(r1[1..], r2[1..]);
    }
  }

  lemma TailMembers(r: seq<Scored>, x: Scored)
    requires StrictlyDescending(r) && r != []
    ensures x in r[1..] <==> x in r && x != r[0]
  {
    if x in r && x != r[0] {
      var i :| 0 <= i < |r| && r[i] == x;
      assert r[1..][i - 1] == x;
    }
  }

  /** The best scores of different markets differ. */
  ghost predicate NoTies(signals: seq<TradeSignal>) {
    forall i, j :: BestAt(signals, i) && BestAt(signals, j) && i != j ==> Raev(signals[i]) != Raev(signals[j])
  }

  lemma RankingStrict(r: seq<Scored>, signals: seq<TradeSignal>)
    requires IsRanking(r, signals) && NoTies(signals)
    ensures StrictlyDescending(r)
  {
    forall i, j | 0 <= i < j < |r| ensures r[i].raev > r[j].raev {
      assert r[i] in r && r[j] in r;
      var a :| BestAt(signals, a) && r[i] == Score(signals[a]);
      var b :| BestAt(signals, b) && r[j] == Score(signals[b]);
      assert a != b;
    }
  }

  /** With a tie between two markets, swapping the tied entries gives another valid ranking. */
  lemma TieSwaps(r: seq<Scored>, signals: seq<TradeSignal>) returns (r': seq<Scored>)
    requires IsRanking(r, signals) && !NoTies(signals)
    ensures IsRanking(r', signals) && r' != r
  {
    hide Raev;
    var a, b :| BestAt(signals, a) && BestAt(signals, b) && a != b && Raev(signals[a]) == Raev(signals[b]);
    var x, y := Score(signals[a]), Score(signals[b]);
    assert Chosen(signals, x) && Chosen(signals, y);
    var i :| 0 <= i < |r| && r[i] == x;
    var j :| 0 <= j < |r| && r[j] == y;
    assert x.signal.marketId != y.signal.marketId;
    SwapEqualScores(r, i, j);
    r' := r[i := y][j := x];
  }

  lemma SwapEqualScores(r: seq<Scored>, i: nat, j: nat)
    requires i < |r| && j < |r| && r[i].raev == r[j].raev && OnePerMarket(r) && Descending(r)
    ensures var r' := r[i := r[j]][j := r[i]];
      OnePerMarket(r') && Descending(r') && forall z :: z in r' <==> z in r
  {
    var r' := r[i := r[j]][j := r[i]];
    assert forall k :: 0 <= k < |r| ==> r'[k].raev == r[k].raev;
    forall z ensures z in r' <==> z in r {
      if z in r {
        var k :| 0 <= k < |r| && r[k] == z;
        assert r'[if k == i then j else if k == j then i else k] == z;
      }
    }
  }

  /** For a given batch the ranking is determined exactly when no two markets tie for their best score. */
  lemma RankingDeterminedIff(r: seq<Scored>, signals: seq<TradeSignal>)
    requires IsRanking(r, signals)
    ensures NoTies(signals) <==> forall r' :: IsRanking(r', signals) ==> r' == r
  {
    if NoTies(signals) {
      RankingStrict(r, signals);
      forall r' | IsRanking(r', signals) ensures r' == r {
        RankingStrict(r', signals);
        StrictListUnique(r', r);
      }
    } else {
      var r' := TieSwaps(r, signals);
    }
  }

  /** No two signals of the batch have the same score. */
  ghost predicate DistinctScores(signals: seq<TradeSignal>) {
    forall i, j :: 0 <= i < j < |signals| ==> Raev(signals[i]) != Raev(signals[j])
  }

  /** The first place where a value occurs. */
  lemma FirstOccurrence(s: seq<TradeSignal>, x: TradeSignal) returns (k: nat)
    requires x in s
    ensures k < |s| && s[k] == x && forall j :: 0 <= j < k ==> s[j] != x
  {
    k := 0;
    while s[k] != x
      invariant k < |s| && forall j :: 0 <= j < k ==> s[j] != x
      decreases |s| - k
    {
      k := k + 1;
    }
  }

  /** Equal scores in a permutation of a batch with distinct scores are equal signals. */
  lemma ScoreDeterminesSignal(s1: seq<TradeSignal>, s2: seq<TradeSignal>, i: nat, j: nat)
    requires multiset(s1) == multiset(s2) && DistinctScores(s1)
    requires i < |s2| && j < |s2| && Raev(s2[i]) == Raev(s2[j])
    ensures s2[i] == s2[j]
  {
    hide Raev;
    assert s2[i] in multiset(s1) && s2[j] in multiset(s1);
    var a :| 0 <= a < |s1| && s1[a] == s2[i];
    var b :| 0 <= b < |s1| && s1[b] == s2[j];
    assert a < b || b < a || a == b;
  }

  lemma ChosenIgnoresOrder(s1: seq<TradeSignal>, s2: seq<TradeSignal>, x: Scored)
    requires multiset(s1) == multiset(s2) && DistinctScores(s1) && Chosen(s1, x)
    ensures Chosen(s2, x)
  {
    hide Raev;
    var a :| BestAt(s1, a) && x == Score(s1[a]);
    assert s1[a] in multiset(s2);
    var b := FirstOccurrence(s2, s1[a]);
    forall j | 0 <= j < |s2| && s2[j].marketId == s2[b].marketId
      ensures Raev(s2[j]) <= Raev(s2[b])
      ensures j < b ==> Raev(s2[j]) < Raev(s2[b])
    {
      assert s2[j] in multiset(s1);
      var i :| 0 <= i < |s1| && s1[i] == s2[j];
      if Raev(s2[j]) == Raev(s2[b]) { ScoreDeterminesSignal(s1, s2, j, b); }
    }
    assert BestAt(s2, b);
  }

  lemma ChosenIgnoresOrderBack(s1: seq<TradeSignal>, s2: seq<TradeSignal>, x: Scored)
    requires multiset(s1) == multiset(s2) && DistinctScores(s1) && Chosen(s2, x)
    ensures Chosen(s1, x)
  {
    hide Raev;
    var a :| BestAt(s2, a) && x == Score(s2[a]);
    assert s2[a] in multiset(s1);
    var b :| 0 <= b < |s1| && s1[b] == s2[a];
    forall j | 0 <= j < |s1| && s1[j].marketId == s1[b].marketId
      ensures Raev(s1[j]) <= Raev(s1[b])
    {
      assert s1[j] in multiset(s2);
      var i :| 0 <= i < |s2| && s2[i] == s1[j];
    }
    assert BestAt(s1, b);
  }

  lemma DistinctScoresNoTies(s1: seq<TradeSignal>, s2: seq<TradeSignal>)
    requires multiset(s1) == multiset(s2) && DistinctScores(s1)
    ensures NoTies(s2)
  {
    hide Raev;
    forall i, j | BestAt(s2, i) && BestAt(s2, j) && i != j ensures Raev(s2[i]) != Raev(s2[j]) {
      if Raev(s2[i]) == Raev(s2[j]) {
        ScoreDeterminesSignal(s1, s2, i, j);
      }
    }
  }

  /** With pairwise distinct scores, every permutation of the batch gives the same allocation. */
  lemma BatchOrderIrrelevant(config: AllocationConfig, capitalAvailable: real,
                             s1: seq<TradeSignal>, s2: seq<TradeSignal>, r1: seq<Scored>, r2: seq<Scored>)
    requires multiset(s1) == multiset(s2) && DistinctScores(s1)
    requires IsRanking(r1, s1) && IsRanking(r2, s2)
    ensures r1 == r2
    ensures Greedy(config, Times(config.totalCapital, capitalAvailable), r1)
         == Greedy(config, Times(config.totalCapital, capitalAvailable), r2)
  {
    hide Greedy;
    forall x ensures x in r1 <==> x in r2 {
      if x in r1 { ChosenIgnoresOrder(s1, s2, x); }
      if x in r2 { ChosenIgnoresOrderBack(s1, s2, x); }
    }
    DistinctScoresNoTies(s1, s1);
    DistinctScoresNoTies(s1, s2);
    RankingStrict(r1, s1);
    RankingStrict(r2, s2);
    StrictListUnique(r1, r2);
  }

  // ---------- a tie decides who is funded ----------

  function TiedSignal(id: string): TradeSignal {
    TradeSignal(id, Buy, 1.0, 0.1, 0.6, 0.5, 1.0, 0, "")
  }

  const TIGHT_CONFIG := AllocationConfig(0.1, 1.0, 0.1, 0.0, 0.0, 1.0)

  lemma NoPenalty(nicheSoFar: real)
    ensures Penalty(TIGHT_CONFIG, nicheSoFar) == 0.0
  {
    assert TIGHT_CONFIG.correlationPenaltyFactor * TIGHT_CONFIG.defaultClusterCorrelation == 0.0;
  }

  /** The first signal gets the whole budget of 0.1, so nothing is left for a second one. */
  lemma BudgetGoesFirst(niche: real)
    ensures Allocation(TIGHT_CONFIG, 0.1, 0.0, 0.0, 0.1) == 0.1
    ensures Allocation(TIGHT_CONFIG, 0.1, 0.1, niche, 0.1) <= 0.0
  {
    hide Penalty, Times;
    NoPenalty(0.0);
    NoPenalty(niche);
    TimesOne(Capped(TIGHT_CONFIG, 0.1, 0.0, 0.0, 0.1));
    TimesOne(Capped(TIGHT_CONFIG, 0.1, 0.1, niche, 0.1));
  }

  lemma GreedyTwo(config: AllocationConfig, budget: real, a: Scored, b: Scored)
    ensures var first := Offer(config, budget, [], a);
      Greedy(config, budget, [a, b]) == first + Offer(config, budget, first, b)
  {
    hide Offer;
    assert [a][..0] == [] && [a, b][..1] == [a];
    assert Greedy(config, budget, []) == [];
    assert Greedy(config, budget, [a]) == [] + Offer(config, budget, [], a) == Offer(config, budget, [], a);
  }

  lemma OfferWhen(config: AllocationConfig, budget: real, out: seq<OptimizedSignal>, x: Scored,
                  used: real, nicheSoFar: real, alloc: real)
    requires used == Used(out) && nicheSoFar == UsedInNiche(out, ClusterId(x.signal.marketId))
    requires alloc == Allocation(config, budget, used, nicheSoFar, x.signal.positionFraction)
    ensures Offer(config, budget, out, x) == if alloc <= 0.0 then [] else [Granted(config, x, nicheSoFar, alloc)]
  {
  }

  lemma FirstTakesAll(x: string, y: string)
    ensures var out := Greedy(TIGHT_CONFIG, 0.1, [Score(TiedSignal(x)), Score(TiedSignal(y))]);
      |out| == 1 && out[0].signal.marketId == x
  {
    hide Allocation, Used, UsedInNiche, Offer, Greedy, Raev, Penalty, Utilization;
    var a, b := Score(TiedSignal(x)), Score(TiedSignal(y));
    UsedNothing();
    BudgetGoesFirst(0.0);
    var g := Granted(TIGHT_CONFIG, a, 0.0, 0.1);
    OfferWhen(TIGHT_CONFIG, 0.1, [], a, 0.0, 0.0, 0.1);
    UsedSnoc([], g);
    assert [] + [g] == [g];
    var niche := UsedInNiche([g], ClusterId(y));
    BudgetGoesFirst(niche);
    OfferWhen(TIGHT_CONFIG, 0.1, [g], b, 0.1, niche, Allocation(TIGHT_CONFIG, 0.1, 0.1, niche, 0.1));
    GreedyTwo(TIGHT_CONFIG, 0.1, a, b);
    assert [g] + [] == [g];
  }

  ghost predicate Funds(signals: seq<TradeSignal>, r: seq<Scored>, id: string) {
    && IsRanking(r, signals)
    && |Greedy(TIGHT_CONFIG, 0.1, r)| == 1
    && Greedy(TIGHT_CONFIG, 0.1, r)[0].signal.marketId == id
  }

  lemma TiedRanking(x: string, y: string, signals: seq<TradeSignal>)
    requires x != y
    requires signals == [TiedSignal(x), TiedSignal(y)] || signals == [TiedSignal(y), TiedSignal(x)]
    ensures Funds(signals, [Score(TiedSignal(x)), Score(TiedSignal(y))], x)
  {
    hide Greedy;
    FirstTakesAll(x, y);
    assert BestAt(signals, 0) && BestAt(signals, 1);
    var r := [Score(TiedSignal(x)), Score(TiedSignal(y))];
    assert Score(signals[0]) in r && Score(signals[1]) in r;
    forall z ensures z in r <==> Chosen(signals, z) {
      if Chosen(signals, z) {
        var k :| BestAt(signals, k) && z == Score(signals[k]);
        assert k == 0 || k == 1;
      }
    }
  }

  /** A batch whose two markets tie has two valid rankings that fund different markets:
      the lookup order of the deduplication map decides. */
  lemma TieChangesAllocation()
    ensures var signals := [TiedSignal("A"), TiedSignal("B")];
      && Funds(signals, [Score(TiedSignal("A")), Score(TiedSignal("B"))], "A")
      && Funds(signals, [Score(TiedSignal("B")), Score(TiedSignal("A"))], "B")
  {
    hide Funds;
    assert "A" != "B" by { assert "A"[0] != "B"[0]; }
    TiedRanking("A", "B", [TiedSignal("A"), TiedSignal("B")]);
    TiedRanking("B", "A", [TiedSignal("A"), TiedSignal("B")]);
  }
}
