/** When ties between markets leave the allocation itself undetermined. */
module AllocatorTies {
  import opened Sums
  import opened Common
  import opened Allocator
  import opened AllocatorTheorems

  // ---------- a larger state never helps ----------

  lemma UtilizationGrows(config: AllocationConfig, less: real, more: real)
    requires ConfigOk(config) && 0.0 <= less <= more
    ensures Penalty(config, less) <= Penalty(config, more)
  {
    NonNegativeProduct(config.correlationPenaltyFactor, config.defaultClusterCorrelation);
    var factor := config.correlationPenaltyFactor * config.defaultClusterCorrelation;
    var a, b := Utilization(config, less), Utilization(config, more);
    assert a <= b by {
      if config.maxAllocationPerNiche > 0.0 {
        QuotientMonotone(less, more, config.maxAllocationPerNiche);
      }
    }
    NonNegativeProduct(factor, b - a);
    assert factor * (b - a) == factor * b - factor * a;
  }

  lemma PositiveFactors(x: real, y: real)
    requires y >= 0.0
    ensures Times(x, y) > 0.0 <==> x > 0.0 && y > 0.0
  {
    if x > 0.0 && y > 0.0 {
      assert x * y > 0.0;
    } else if y > 0.0 {
      assert x * y <= 0.0;
    }
  }

  /** An allocation that is positive stays positive when less has been used. */
  lemma AllocationMonotone(config: AllocationConfig, budget: real, used: real, moreUsed: real,
                           niche: real, moreNiche: real, request: real)
    requires ConfigOk(config) && used <= moreUsed && 0.0 <= niche <= moreNiche
    requires Allocation(config, budget, moreUsed, moreNiche, request) > 0.0
    ensures Allocation(config, budget, used, niche, request) > 0.0
  {
    hide Times, Penalty;
    UtilizationGrows(config, niche, moreNiche);
    PositiveFactors(Capped(config, budget, moreUsed, moreNiche, request), Max(1.0 - Penalty(config, moreNiche), 0.0));
    PositiveFactors(Capped(config, budget, used, niche, request), Max(1.0 - Penalty(config, niche), 0.0));
  }

  ghost predicate Positive(out: seq<OptimizedSignal>) {
    forall k :: 0 <= k < |out| ==> out[k].signal.positionFraction > 0.0
  }

  lemma {:induction false} UsedNonNegative(out: seq<OptimizedSignal>, niche: string)
    requires Positive(out)
    ensures UsedInNiche(out, niche) >= 0.0
  {
    if out != [] {
      UsedNonNegative(out[..|out| - 1], niche);
    }
  }

  /** What receives nothing now receives nothing after another grant. */
  lemma OfferStaysEmpty(config: AllocationConfig, budget: real, out: seq<OptimizedSignal>, g: OptimizedSignal,
                        x: Scored)
    requires ConfigOk(config) && Positive(out + [g]) && Offer(config, budget, out, x) == []
    ensures Offer(config, budget, out + [g], x) == []
  {
    hide Allocation, Used, UsedInNiche;
    var niche := ClusterId(x.signal.marketId);
    assert Positive(out) && g.signal.positionFraction > 0.0 by {
      assert (out + [g])[|out|] == g;
      assert forall k :: 0 <= k < |out| ==> (out + [g])[k] == out[k];
    }
    UsedNonNegative(out, niche);
    UsedSnoc(out, g);
    if Offer(config, budget, out + [g], x) != [] {
      AllocationMonotone(config, budget, Used(out), Used(out + [g]), UsedInNiche(out, niche),
                         UsedInNiche(out + [g], niche), x.signal.positionFraction);
      assert false;
    }
  }

  // ---------- serving a list from a given state ----------

  ghost function Serve(config: AllocationConfig, budget: real, out: seq<OptimizedSignal>, list: seq<Scored>)
    : seq<OptimizedSignal>
    decreases |list|
  {
    if list == [] then out else
      Serve(config, budget, out + Offer(config, budget, out, list[0]), list[1..])
  }

  lemma {:induction false} ServeLast(config: AllocationConfig, budget: real, out: seq<OptimizedSignal>,
                                     list: seq<Scored>)
    requires list != []
    ensures var before := Serve(config, budget, out, list[..|list| - 1]);
      Serve(config, budget, out, list) == before + Offer(config, budget, before, list[|list| - 1])
    decreases |list|
  {
    hide Offer;
    if |list| > 1 {
      ServeLast(config, budget, out + Offer(config, budget, out, list[0]), list[1..]);
      assert list[1..][..|list| - 2] == list[..|list| - 1][1..];
    } else {
      assert list[..0] == [] && list[1..] == [];
    }
  }

  /** The greedy pass serves its prefix, then the rest. */
  lemma {:induction false} GreedyServes(config: AllocationConfig, budget: real, r: seq<Scored>, k: nat)
    requires k <= |r|
    ensures Greedy(config, budget, r) == Serve(config, budget, Greedy(config, budget, r[..k]), r[k..])
    decreases |r|
  {
    hide Offer;
    if k < |r| {
      var last := |r| - 1;
      GreedyServes(config, budget, r[..last], k);
      assert r[..last][..k] == r[..k] && r[..last][k..] == r[k..][..last - k];
      ServeLast(config, budget, Greedy(config, budget, r[..k]), r[k..]);
    } else {
      assert r[..k] == r && r[k..] == [];
    }
  }

  lemma {:induction false} ServeExtends(config: AllocationConfig, budget: real, out: seq<OptimizedSignal>,
                                        list: seq<Scored>)
    ensures out <= Serve(config, budget, out, list)
    decreases |list|
  {
    hide Offer;
    if list != [] {
      ServeExtends(config, budget, out + Offer(config, budget, out, list[0]), list[1..]);
    }
  }

  lemma {:induction false} GreedyPositive(config: AllocationConfig, budget: real, r: seq<Scored>)
    ensures Positive(Greedy(config, budget, r))
  {
    hide Allocation;
    if r != [] {
      GreedyPositive(config, budget, r[..|r| - 1]);
    }
  }

  // ---------- one tier of equal scores ----------

  ghost predicate Wants(config: AllocationConfig, budget: real, out: seq<OptimizedSignal>, x: Scored) {
    Offer(config, budget, out, x) != []
  }

  ghost predicate OneWants(config: AllocationConfig, budget: real, out: seq<OptimizedSignal>, tier: seq<Scored>) {
    forall i, j :: 0 <= i < j < |tier| ==>
      !(Wants(config, budget, out, tier[i]) && Wants(config, budget, out, tier[j]))
  }

  lemma {:induction false} NobodyServed(config: AllocationConfig, budget: real, out: seq<OptimizedSignal>,
                                        list: seq<Scored>)
    requires forall k :: 0 <= k < |list| ==> !Wants(config, budget, out, list[k])
    ensures Serve(config, budget, out, list) == out
  {
    hide Offer;
    if list != [] {
      assert !Wants(config, budget, out, list[0]);
      assert out + [] == out;
      NobodyServed(config, budget, out, list[1..]);
    }
  }

  /** Where at most one member of a tier would receive anything, the order of the tier is irrelevant. */
  lemma {:induction false} TierServed(config: AllocationConfig, budget: real, out: seq<OptimizedSignal>,
                                      tier: seq<Scored>,
                                      k: nat)
    requires ConfigOk(config) && Positive(out) && OneWants(config, budget, out, tier)
    requires k < |tier| && Wants(config, budget, out, tier[k])
    ensures Serve(config, budget, out, tier) == out + Offer(config, budget, out, tier[k])
    decreases |tier|
  {
    hide Allocation;
    if k == 0 {
      var g := Offer(config, budget, out, tier[0])[0];
      forall m | 0 <= m < |tier[1..]| ensures !Wants(config, budget, out + [g], tier[1..][m]) {
        assert !Wants(config, budget, out, tier[m + 1]);
        OfferStaysEmpty(config, budget, out, g, tier[m + 1]);
      }
      NobodyServed(config, budget, out + [g], tier[1..]);
    } else {
      assert !Wants(config, budget, out, tier[0]);
      assert out + [] == out;
      TierServed(config, budget, out, tier[1..], k - 1);
    }
  }

  lemma SameTier(config: AllocationConfig, budget: real, out: seq<OptimizedSignal>, tier: seq<Scored>,
                 other: seq<Scored>)
    requires ConfigOk(config) && Positive(out) && OneWants(config, budget, out, tier)
    requires multiset(tier) == multiset(other)
    ensures Serve(config, budget, out, tier) == Serve(config, budget, out, other)
  {
    hide Serve, Offer;
    OneWantsPermuted(config, budget, out, tier, other);
    if k: nat :| k < |tier| && Wants(config, budget, out, tier[k]) {
      assert tier[k] in multiset(other);
      var m: nat :| m < |other| && other[m] == tier[k];
      TierServed(config, budget, out, tier, k);
      TierServed(config, budget, out, other, m);
    } else {
      forall m | 0 <= m < |other| ensures !Wants(config, budget, out, other[m]) {
        assert other[m] in multiset(tier);
      }
      NobodyServed(config, budget, out, tier);
      NobodyServed(config, budget, out, other);
    }
  }

  lemma OneWantsPermuted(config: AllocationConfig, budget: real, out: seq<OptimizedSignal>,
                         tier: seq<Scored>, other: seq<Scored>)
    requires OneWants(config, budget, out, tier) && multiset(tier) == multiset(other)
    ensures OneWants(config, budget, out, other)
  {
    hide Wants;
    forall i, j | 0 <= i < j < |other|
      ensures !(Wants(config, budget, out, other[i]) && Wants(config, budget, out, other[j])) {
      var a, b := TwoPlaces(other, tier, i, j);
      assert a < b || b < a;
    }
  }

  lemma OtherPlace(t: seq<Scored>, a: nat, x: Scored) returns (b: nat)
    requires a < |t| && x in Without(t, a)
    ensures b < |t| && b != a && t[b] == x
  {
    var c: nat :| c < |Without(t, a)| && Without(t, a)[c] == x;
    b := if c < a then c else c + 1;
  }

  /** Two places of a sequence have two different places in any permutation of it. */
  lemma TwoPlaces(s: seq<Scored>, t: seq<Scored>, i: nat, j: nat) returns (a: nat, b: nat)
    requires multiset(s) == multiset(t) && i < j < |s|
    ensures a < |t| && b < |t| && a != b && t[a] == s[i] && t[b] == s[j]
  {
    assert s[i] in multiset(t);
    a :| 0 <= a < |t| && t[a] == s[i];
    MultisetWithout(s, i);
    MultisetWithout(t, a);
    assert Without(s, i)[j - 1] == s[j];
    hide Without;
    assert s[j] in multiset(Without(s, i));
    assert s[j] in multiset(Without(t, a));
    b := OtherPlace(t, a, s[j]);
  }

  // ---------- tier by tier ----------

  /** How many entries share the highest score. */
  function TierEnd(r: seq<Scored>): (p: nat)
    requires r != []
    ensures 0 < p <= |r| && forall k :: 0 <= k < p ==> r[k].raev == r[0].raev
    ensures p < |r| ==> r[p].raev != r[0].raev
    decreases |r|
  {
    if |r| == 1 || r[1].raev != r[0].raev then 1 else
      var p := TierEnd(r[1..]);
      assert forall k :: 1 <= k < p + 1 ==> r[k] == r[1..][k - 1];
      p + 1
  }

  /** Going down the tiers of equal score, at most one market of each tier would receive anything
      from what the higher tiers leave. */
  ghost predicate Settled(config: AllocationConfig, budget: real, out: seq<OptimizedSignal>, r: seq<Scored>)
    decreases |r|
  {
    r == [] ||
    (var p := TierEnd(r);
     OneWants(config, budget, out, r[..p]) && Settled(config, budget, Serve(config, budget, out, r[..p]), r[p..]))
  }

  lemma TierMembers(r: seq<Scored>, x: Scored)
    requires r != [] && Descending(r)
    ensures multiset(r[..TierEnd(r)])[x] == if x.raev == r[0].raev then multiset(r)[x] else 0
    ensures multiset(r[TierEnd(r)..])[x] == if x.raev == r[0].raev then 0 else multiset(r)[x]
  {
    var p := TierEnd(r);
    assert r == r[..p] + r[p..];
    if x in r[..p] {
      assert x.raev == r[0].raev;
    }
    if x in r[p..] {
      var k :| p <= k < |r| && r[k] == x;
      assert x.raev < r[0].raev;
    }
  }

  lemma SameTop(r: seq<Scored>, s: seq<Scored>)
    requires r != [] && Descending(r) && Descending(s) && multiset(r) == multiset(s)
    ensures s != [] && s[0].raev == r[0].raev
  {
    assert r[0] in multiset(s);
    assert s[0] in multiset(r);
  }

  lemma TierCounts(r: seq<Scored>, s: seq<Scored>, x: Scored)
    requires r != [] && s != [] && Descending(r) && Descending(s) && multiset(r) == multiset(s)
    requires s[0].raev == r[0].raev
    ensures multiset(r[..TierEnd(r)])[x] == multiset(s[..TierEnd(s)])[x]
    ensures multiset(r[TierEnd(r)..])[x] == multiset(s[TierEnd(s)..])[x]
  {
    TierMembers(r, x);
    TierMembers(s, x);
  }

  lemma SameSize(a: seq<Scored>, b: seq<Scored>)
    requires multiset(a) == multiset(b)
    ensures |a| == |b|
  {
    assert |multiset(a)| == |a| && |multiset(b)| == |b|;
  }

  lemma SameCounts(a: multiset<Scored>, b: multiset<Scored>)
    requires forall x :: a[x] == b[x]
    ensures a == b
  {
  }

  lemma TierMultisets(r: seq<Scored>, s: seq<Scored>)
    requires r != [] && s != [] && Descending(r) && Descending(s) && multiset(r) == multiset(s)
    requires s[0].raev == r[0].raev
    ensures multiset(r[..TierEnd(r)]) == multiset(s[..TierEnd(s)])
    ensures multiset(r[TierEnd(r)..]) == multiset(s[TierEnd(s)..])
  {
    hide TierEnd, Descending;
    var a, b := multiset(r[..TierEnd(r)]), multiset(s[..TierEnd(s)]);
    forall x ensures a[x] == b[x] {
      TierCounts(r, s, x);
    }
    SameCounts(a, b);
    var a', b' := multiset(r[TierEnd(r)..]), multiset(s[TierEnd(s)..]);
    forall x ensures a'[x] == b'[x] {
      TierCounts(r, s, x);
    }
    SameCounts(a', b');
  }

  /** Descending lists of the same entries have the same first tier. */
  lemma TiersMatch(r: seq<Scored>, s: seq<Scored>)
    requires r != [] && Descending(r) && Descending(s) && multiset(r) == multiset(s)
    ensures s != [] && TierEnd(s) == TierEnd(r)
    ensures multiset(r[..TierEnd(r)]) == multiset(s[..TierEnd(r)])
    ensures multiset(r[TierEnd(r)..]) == multiset(s[TierEnd(r)..])
  {
    hide TierEnd, Descending;
    SameTop(r, s);
    TierMultisets(r, s);
    SameSize(r[..TierEnd(r)], s[..TierEnd(s)]);
  }

  lemma TailDescends(r: seq<Scored>, p: nat)
    requires Descending(r) && p <= |r|
    ensures Descending(r[p..])
  {
  }

  lemma {:induction false} ServeSplit(config: AllocationConfig, budget: real, out: seq<OptimizedSignal>,
                                      a: seq<Scored>, b: seq<Scored>)
    ensures Serve(config, budget, out, a + b) == Serve(config, budget, Serve(config, budget, out, a), b)
    decreases |a|
  {
    hide Offer;
    if a == [] {
      assert a + b == b;
    } else {
      assert (a + b)[1..] == a[1..] + b;
      ServeSplit(config, budget, out + Offer(config, budget, out, a[0]), a[1..], b);
    }
  }

  lemma {:induction false} ServePositive(config: AllocationConfig, budget: real, out: seq<OptimizedSignal>,
                                         list: seq<Scored>)
    requires Positive(out)
    ensures Positive(Serve(config, budget, out, list))
    decreases |list|
  {
    hide Allocation;
    if list != [] {
      ServePositive(config, budget, out + Offer(config, budget, out, list[0]), list[1..]);
    }
  }

  lemma SettledStep(config: AllocationConfig, budget: real, out: seq<OptimizedSignal>, r: seq<Scored>)
    requires Settled(config, budget, out, r) && r != []
    ensures OneWants(config, budget, out, r[..TierEnd(r)])
    ensures Settled(config, budget, Serve(config, budget, out, r[..TierEnd(r)]), r[TierEnd(r)..])
  {
    hide OneWants, Serve, TierEnd;
  }

  /** Settled ties leave one output, whatever their order. */
  lemma {:induction false} SettledOutput(config: AllocationConfig, budget: real, out: seq<OptimizedSignal>,
                                         r: seq<Scored>, s: seq<Scored>)
    requires ConfigOk(config) && Positive(out) && Settled(config, budget, out, r)
    requires Descending(r) && Descending(s) && multiset(r) == multiset(s)
    ensures Serve(config, budget, out, r) == Serve(config, budget, out, s)
    decreases |r|
  {
    hide Offer, Descending, TierEnd, Positive, OneWants, Serve, Settled;
    if r == [] {
      assert |multiset(s)| == 0;
    } else {
      TiersMatch(r, s);
      var p := TierEnd(r);
      SettledStep(config, budget, out, r);
      TailDescends(r, p);
      TailDescends(s, p);
      var next := Serve(config, budget, out, r[..p]);
      SameTier(config, budget, out, r[..p], s[..p]);
      ServePositive(config, budget, out, r[..p]);
      SettledOutput(config, budget, next, r[p..], s[p..]);
      assert r == r[..p] + r[p..] && s == s[..p] + s[p..];
      ServeSplit(config, budget, out, r[..p], r[p..]);
      ServeSplit(config, budget, out, s[..p], s[p..]);
    }
  }

  /** Moving an entry of the first tier to the front. */
  function ToFront(r: seq<Scored>, i: nat): seq<Scored>
    requires i < |r|
  {
    [r[i]] + Without(r, i)
  }

  lemma FrontStays(r: seq<Scored>, i: nat)
    requires Descending(r) && i < |r| && r[i].raev == r[0].raev
    ensures Descending(ToFront(r, i)) && multiset(ToFront(r, i)) == multiset(r)
  {
    MultisetWithout(r, i);
  }

  lemma FrontFunded(config: AllocationConfig, budget: real, out: seq<OptimizedSignal>, r: seq<Scored>, i: nat)
    requires i < |r| && Wants(config, budget, out, r[i])
    ensures var served := Serve(config, budget, out, ToFront(r, i));
      |served| > |out| && served[|out|].signal.marketId == r[i].signal.marketId
  {
    hide Allocation;
    var s := ToFront(r, i);
    assert s[0] == r[i] && s[1..] == Without(r, i);
    var more := out + Offer(config, budget, out, s[0]);
    ServeExtends(config, budget, more, s[1..]);
    assert more[|out|].signal.marketId == r[i].signal.marketId;
  }

  /** Unsettled ties have two orders with different outputs. */
  lemma {:induction false} UnsettledDiffers(config: AllocationConfig, budget: real, out: seq<OptimizedSignal>,
                                            r: seq<Scored>)
    returns (a: seq<Scored>, b: seq<Scored>)
    requires OnePerMarket(r) && Descending(r) && !Settled(config, budget, out, r)
    ensures Descending(a) && Descending(b) && multiset(a) == multiset(r) == multiset(b)
    ensures Serve(config, budget, out, a) != Serve(config, budget, out, b)
    decreases |r|
  {
    hide Offer;
    var p := TierEnd(r);
    if !OneWants(config, budget, out, r[..p]) {
      var i, j :| 0 <= i < j < p && Wants(config, budget, out, r[i]) && Wants(config, budget, out, r[j]);
      a, b := ToFront(r, i), ToFront(r, j);
      FrontStays(r, i);
      FrontStays(r, j);
      FrontFunded(config, budget, out, r, i);
      FrontFunded(config, budget, out, r, j);
    } else {
      var x, y := UnsettledDiffers(config, budget, Serve(config, budget, out, r[..p]), r[p..]);
      a, b := r[..p] + x, r[..p] + y;
      assert r == r[..p] + r[p..];
      TierAhead(r, x);
      TierAhead(r, y);
      ServeSplit(config, budget, out, r[..p], x);
      ServeSplit(config, budget, out, r[..p], y);
    }
  }

  lemma TierAhead(r: seq<Scored>, x: seq<Scored>)
    requires r != [] && Descending(r) && Descending(x) && multiset(x) == multiset(r[TierEnd(r)..])
    ensures Descending(r[..TierEnd(r)] + x)
  {
    forall k | 0 <= k < |x| ensures x[k].raev <= r[0].raev {
      assert x[k] in multiset(r[TierEnd(r)..]);
    }
  }

  // ---------- the exact condition ----------

  lemma {:induction false} CountInRanking(r: seq<Scored>, x: Scored)
    requires OnePerMarket(r)
    ensures multiset(r)[x] == if x in r then 1 else 0
  {
    if r != [] {
      var front, last := r[..|r| - 1], r[|r| - 1];
      CountInRanking(front, x);
      assert r == front + [last];
      assert forall k :: 0 <= k < |front| ==> front[k] != last;
    }
  }

  lemma RankingsPermute(r: seq<Scored>, s: seq<Scored>, signals: seq<TradeSignal>)
    requires IsRanking(r, signals) && IsRanking(s, signals)
    ensures multiset(r) == multiset(s)
  {
    forall x ensures multiset(r)[x] == multiset(s)[x] {
      CountInRanking(r, x);
      CountInRanking(s, x);
      assert x in r <==> x in s;
    }
  }

  lemma PermutedRanking(r: seq<Scored>, s: seq<Scored>, signals: seq<TradeSignal>)
    requires IsRanking(r, signals) && Descending(s) && multiset(s) == multiset(r)
    ensures IsRanking(s, signals)
  {
    forall i, j | 0 <= i < j < |s| ensures s[i].signal.marketId != s[j].signal.marketId {
      var a, b := TwoPlaces(s, r, i, j);
      assert a < b || b < a;
    }
    forall x ensures x in s <==> x in r {
      assert x in s <==> x in multiset(s);
      assert x in r <==> x in multiset(r);
    }
  }

  /** The allocation of a batch is determined if and only if its ties are settled: in each tier of equal scores
      at most one market would receive anything from what the higher scores leave. */
  lemma OutputDeterminedIff(config: AllocationConfig, budget: real, r: seq<Scored>, signals: seq<TradeSignal>)
    requires ConfigOk(config) && IsRanking(r, signals)
    ensures Settled(config, budget, [], r)
       <==> forall s :: IsRanking(s, signals) ==> Greedy(config, budget, s) == Greedy(config, budget, r)
  {
    hide Settled, Serve, Greedy;
    FromNothing(config, budget, r);
    if Settled(config, budget, [], r) {
      forall s | IsRanking(s, signals) ensures Greedy(config, budget, s) == Greedy(config, budget, r) {
        RankingsPermute(r, s, signals);
        SettledOutput(config, budget, [], r, s);
        FromNothing(config, budget, s);
      }
    } else {
      var a, b := UnsettledDiffers(config, budget, [], r);
      PermutedRanking(r, a, signals);
      PermutedRanking(r, b, signals);
      FromNothing(config, budget, a);
      FromNothing(config, budget, b);
    }
  }

  lemma FromNothing(config: AllocationConfig, budget: real, r: seq<Scored>)
    ensures Greedy(config, budget, r) == Serve(config, budget, [], r)
  {
    GreedyServes(config, budget, r, 0);
    assert r[..0] == [] && r[0..] == r;
  }

  /** Without ties every batch is settled. */
  lemma {:induction false} NoTiesSettled(config: AllocationConfig, budget: real, out: seq<OptimizedSignal>,
                                         r: seq<Scored>)
    requires StrictlyDescending(r)
    ensures Settled(config, budget, out, r)
    decreases |r|
  {
    if r != [] {
      assert TierEnd(r) == 1;
      NoTiesSettled(config, budget, Serve(config, budget, out, r[..1]), r[1..]);
    }
  }
}
