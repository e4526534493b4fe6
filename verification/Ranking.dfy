/** Average ranks with epsilon ties, and Spearman's rank correlation. */
module Ranking {
  import opened Wrappers
  import opened Sums
  import opened Correlation

  const TIE: real := 0.000000000001

  // ---------- what an average ranking is ----------

  ghost function Below(r: seq<real>, a: nat): set<nat>
    requires a < |r|
  {
    set b: nat | b < |r| && r[b] < r[a]
  }

  ghost function Same(r: seq<real>, a: nat): set<nat>
    requires a < |r|
  {
    set b: nat | b < |r| && r[b] == r[a]
  }

  /** Equal ranks lie within the tie width of one another, and a higher rank is a full tie width above
      some member of any lower one. */
  ghost predicate TiesAt(xs: seq<real>, r: seq<real>, a: nat, b: nat)
    requires a < |xs| == |r| && b < |xs|
  {
    && (xs[a] <= xs[b] ==> r[a] <= r[b])
    && (r[a] == r[b] ==> Abs(xs[a] - xs[b]) < TIE)
    && (r[a] < r[b] ==> exists c: nat :: c < |xs| && r[c] == r[a] && xs[b] - xs[c] >= TIE)
  }

  /** Ranks follow the values, and each is the average place of its group of ties, counted from 1. */
  ghost predicate IsAverageRanking(xs: seq<real>, r: seq<real>) {
    && |r| == |xs|
    && (forall a: nat, b: nat :: a < |xs| && b < |xs| ==> TiesAt(xs, r, a, b))
    && (forall a: nat :: a < |xs| ==>
          r[a] == |Below(r, a)| as real + (|Same(r, a)| + 1) as real / 2.0)
  }

  // ---------- it is unique ----------

  lemma {:induction false} SameGroups(xs: seq<real>, r: seq<real>, s: seq<real>, a: nat, b: nat)
    requires IsAverageRanking(xs, r) && IsAverageRanking(xs, s)
    requires a < |xs| && b < |xs| && xs[a] <= xs[b] && r[a] == r[b]
    ensures s[a] == s[b]
    decreases |Below(xs, a)|
  {
    assert TiesAt(xs, s, a, b);
    if s[a] < s[b] {
      var c: nat :| c < |xs| && s[c] == s[a] && xs[b] - xs[c] >= TIE;
      assert TiesAt(xs, r, c, b) && TiesAt(xs, r, a, c) && TiesAt(xs, r, b, c);
      assert xs[c] < xs[a];
      assert Below(xs, c) < Below(xs, a) by {
        assert c in Below(xs, a) && c !in Below(xs, c);
      }
      SubsetSmaller(Below(xs, c), Below(xs, a));
      SameGroups(xs, s, r, c, a);
      assert false;
    }
  }

  lemma SubsetSmaller(s: set<nat>, t: set<nat>)
    requires s < t
    ensures |s| < |t|
  {
    var x :| x in t && x !in s;
    assert s <= t - {x};
    SubsetNotLarger(s, t - {x});
  }

  lemma {:induction false} SubsetNotLarger(s: set<nat>, t: set<nat>)
    requires s <= t
    ensures |s| <= |t|
  {
    if s != {} {
      var x :| x in s;
      SubsetNotLarger(s - {x}, t - {x});
    }
  }

  lemma SameOrder(xs: seq<real>, r: seq<real>, s: seq<real>, a: nat, b: nat)
    requires IsAverageRanking(xs, r) && IsAverageRanking(xs, s)
    requires a < |xs| && b < |xs| && r[a] < r[b]
    ensures s[a] < s[b]
  {
    assert TiesAt(xs, r, b, a) && TiesAt(xs, s, a, b);
    if s[a] == s[b] {
      SameGroups(xs, s, r, a, b);
    }
  }

  /** Two average rankings of the same values agree. */
  lemma RankingUnique(xs: seq<real>, r: seq<real>, s: seq<real>)
    requires IsAverageRanking(xs, r) && IsAverageRanking(xs, s)
    ensures r == s
  {
    forall a: nat | a < |xs| ensures r[a] == s[a] {
      forall b: nat | b < |xs|
        ensures r[b] < r[a] <==> s[b] < s[a]
        ensures r[b] == r[a] <==> s[b] == s[a] {
        if r[b] < r[a] { SameOrder(xs, r, s, b, a); }
        if s[b] < s[a] { SameOrder(xs, s, r, b, a); }
        if r[a] < r[b] { SameOrder(xs, r, s, a, b); }
        if s[a] < s[b] { SameOrder(xs, s, r, a, b); }
      }
      assert Below(r, a) == Below(s, a) && Same(r, a) == Same(s, a);
    }
  }

  /** Values a full tie width apart always get different ranks. */
  lemma RankingStrict(xs: seq<real>, r: seq<real>, a: nat, b: nat)
    requires IsAverageRanking(xs, r) && a < |xs| && b < |xs|
    requires xs[b] - xs[a] >= TIE
    ensures r[a] < r[b]
  {
    assert TiesAt(xs, r, a, b);
  }

  // ---------- ranks depend on the order only ----------

  /** Different values are at least a tie width apart. */
  ghost predicate Separated(xs: seq<real>) {
    forall a: nat, b: nat :: a < |xs| && b < |xs| && xs[a] < xs[b] ==> xs[b] - xs[a] >= TIE
  }

  /** Any order-preserving change of well separated values leaves the ranking alone. */
  lemma RankingByOrder(xs: seq<real>, ys: seq<real>, r: seq<real>)
    requires |xs| == |ys| && Separated(xs) && Separated(ys) && IsAverageRanking(xs, r)
    requires forall a: nat, b: nat :: a < |xs| && b < |xs| ==> (xs[a] < xs[b] <==> ys[a] < ys[b])
    ensures IsAverageRanking(ys, r)
  {
    forall a: nat, b: nat | a < |xs| && b < |xs| ensures TiesAt(ys, r, a, b) {
      assert TiesAt(xs, r, a, b) && TiesAt(xs, r, b, a);
      assert xs[b] < xs[a] <==> ys[b] < ys[a];
      if r[a] < r[b] {
        assert ys[a] < ys[b];
        assert r[a] == r[a] && ys[b] - ys[a] >= TIE;
      }
    }
  }

  // ---------- sorting ----------

  type Entry = (nat, real)

  ghost predicate Listed(idx: seq<Entry>, a: nat) {
    exists k :: 0 <= k < |idx| && idx[k].0 == a
  }

  /** Each position of the values occurs once, with its value. */
  ghost predicate Indexes(idx: seq<Entry>, xs: seq<real>) {
    && |idx| == |xs|
    && (forall k :: 0 <= k < |idx| ==> idx[k].0 < |xs| && idx[k].1 == xs[idx[k].0])
    && (forall a: nat :: a < |xs| ==> Listed(idx, a))
    && (forall k, m :: 0 <= k < m < |idx| ==> idx[k].0 != idx[m].0)
  }

  ghost predicate SortedByValue(idx: seq<Entry>) {
    forall k, m :: 0 <= k < m < |idx| ==> idx[k].1 <= idx[m].1
  }

  /** Put an entry after every entry that is not larger. */
  method InsertByValue(idx: seq<Entry>, e: Entry) returns (r: seq<Entry>, pos: nat)
    requires SortedByValue(idx)
    ensures pos <= |idx| && r == idx[..pos] + [e] + idx[pos..]
    ensures SortedByValue(r)
  {
    pos := |idx|;
    while pos > 0 && idx[pos - 1].1 > e.1
      invariant pos <= |idx|
      invariant forall k :: pos <= k < |idx| ==> e.1 < idx[k].1
    {
      pos := pos - 1;
    }
    r := idx[..pos] + [e] + idx[pos..];
  }

  lemma IndexesGrow(idx: seq<Entry>, xs: seq<real>, x: real, pos: nat)
    requires Indexes(idx, xs) && pos <= |idx|
    ensures Indexes(idx[..pos] + [(|xs|, x)] + idx[pos..], xs + [x])
  {
    var r := idx[..pos] + [(|xs|, x)] + idx[pos..];
    forall a: nat | a < |xs| + 1 ensures Listed(r, a) {
      if a == |xs| {
        assert r[pos].0 == a;
      } else {
        assert Listed(idx, a);
        var k :| 0 <= k < |idx| && idx[k].0 == a;
        assert r[if k < pos then k else k + 1] == idx[k];
      }
    }
  }

  /** Pairs of position and value, sorted by value. */
  method SortByValue(xs: seq<real>) returns (idx: seq<Entry>)
    ensures Indexes(idx, xs) && SortedByValue(idx)
  {
    idx := [];
    for i := 0 to |xs|
      invariant Indexes(idx, xs[..i]) && SortedByValue(idx)
    {
      var grown, pos := InsertByValue(idx, (i, xs[i]));
      IndexesGrow(idx, xs[..i], xs[i], pos);
      assert xs[..i + 1] == xs[..i] + [xs[i]];
      idx := grown;
    }
    assert xs[..|xs|] == xs;
  }

  // ---------- groups of ties among the sorted values ----------

  /** A run of sorted places [lo, hi) that gets one rank. */
  datatype Group = Group(lo: nat, hi: nat)

  function RankOf(g: Group): real {
    (g.lo + g.hi + 1) as real / 2.0
  }

  /** Place k belongs to its group, which starts at a value and takes all within a tie width of it. */
  ghost predicate GroupAt(idx: seq<Entry>, groups: seq<Group>, k: nat)
    requires k < |groups| <= |idx|
  {
    var g := groups[k];
    && g.lo <= k < g.hi <= |groups|
    && (forall m :: g.lo <= m < g.hi ==> groups[m] == g && idx[m].1 - idx[g.lo].1 < TIE)
    && (g.hi < |idx| ==> idx[g.hi].1 - idx[g.lo].1 >= TIE)
  }

  ghost predicate Grouped(idx: seq<Entry>, groups: seq<Group>) {
    |groups| <= |idx| && forall k: nat :: k < |groups| ==> GroupAt(idx, groups, k)
  }

  lemma GroupedGrow(idx: seq<Entry>, groups: seq<Group>, j: nat)
    requires Grouped(idx, groups) && |groups| < j <= |idx|
    requires forall m :: |groups| <= m < j ==> idx[m].1 - idx[|groups|].1 < TIE
    requires j < |idx| ==> idx[j].1 - idx[|groups|].1 >= TIE
    ensures Grouped(idx, groups + seq(j - |groups|, _ => Group(|groups|, j)))
  {
    var i := |groups|;
    var grown := groups + seq(j - i, _ => Group(i, j));
    forall k: nat | k < j ensures GroupAt(idx, grown, k) {
      if k < i {
        assert GroupAt(idx, groups, k);
      }
    }
  }

  lemma GroupOrder(idx: seq<Entry>, groups: seq<Group>, k: nat, m: nat)
    requires Grouped(idx, groups) && k < m < |groups|
    ensures groups[k] == groups[m] || groups[k].hi <= groups[m].lo
    ensures RankOf(groups[k]) <= RankOf(groups[m])
    ensures RankOf(groups[k]) == RankOf(groups[m]) <==> groups[k] == groups[m]
  {
    assert GroupAt(idx, groups, k) && GroupAt(idx, groups, m);
    assert groups[groups[k].hi - 1] == groups[k];
  }

  /** The positions listed at the places [lo, hi). */
  ghost function PlacesOf(idx: seq<Entry>, lo: nat, hi: nat): set<nat>
    requires lo <= hi <= |idx|
    decreases hi
  {
    if lo == hi then {} else PlacesOf(idx, lo, hi - 1) + {idx[hi - 1].0}
  }

  lemma {:induction false} PlaceMember(idx: seq<Entry>, xs: seq<real>, lo: nat, hi: nat, q: nat)
    requires Indexes(idx, xs) && lo <= hi <= |idx| && q < |idx|
    ensures idx[q].0 in PlacesOf(idx, lo, hi) <==> lo <= q < hi
    decreases hi
  {
    if lo < hi {
      PlaceMember(idx, xs, lo, hi - 1, q);
    }
  }

  lemma {:induction false} PlacesInRange(idx: seq<Entry>, xs: seq<real>, lo: nat, hi: nat)
    requires Indexes(idx, xs) && lo <= hi <= |idx|
    ensures forall b :: b in PlacesOf(idx, lo, hi) ==> b < |xs|
    decreases hi
  {
    if lo < hi {
      PlacesInRange(idx, xs, lo, hi - 1);
    }
  }

  lemma {:induction false} PlacesCounted(idx: seq<Entry>, xs: seq<real>, lo: nat, hi: nat)
    requires Indexes(idx, xs) && lo <= hi <= |idx|
    ensures |PlacesOf(idx, lo, hi)| == hi - lo
    decreases hi
  {
    if lo < hi {
      PlacesCounted(idx, xs, lo, hi - 1);
      PlaceMember(idx, xs, lo, hi - 1, hi - 1);
    }
  }

  ghost predicate RanksByGroup(idx: seq<Entry>, groups: seq<Group>, r: seq<real>) {
    && |groups| == |idx| == |r|
    && forall k :: 0 <= k < |idx| ==> idx[k].0 < |r| && r[idx[k].0] == RankOf(groups[k])
  }

  lemma GroupTies(xs: seq<real>, idx: seq<Entry>, groups: seq<Group>, r: seq<real>, p: nat, q: nat)
    requires Indexes(idx, xs) && SortedByValue(idx) && Grouped(idx, groups) && RanksByGroup(idx, groups, r)
    requires p < |idx| && q < |idx|
    ensures TiesAt(xs, r, idx[p].0, idx[q].0)
  {
    hide RankOf;
    var a, b := idx[p].0, idx[q].0;
    assert GroupAt(idx, groups, p) && GroupAt(idx, groups, q);
    if p < q {
      GroupOrder(idx, groups, p, q);
    } else if q < p {
      GroupOrder(idx, groups, q, p);
    }
    if r[a] < r[b] {
      var c := idx[groups[p].lo].0;
      assert r[c] == r[a] && xs[b] - xs[c] >= TIE;
    }
  }

  lemma GroupCompare(xs: seq<real>, idx: seq<Entry>, groups: seq<Group>, r: seq<real>, p: nat, q: nat)
    requires Indexes(idx, xs) && Grouped(idx, groups) && RanksByGroup(idx, groups, r)
    requires p < |idx| && q < |idx|
    ensures r[idx[q].0] < r[idx[p].0] <==> q < groups[p].lo
    ensures r[idx[q].0] == r[idx[p].0] <==> groups[p].lo <= q < groups[p].hi
  {
    hide RankOf;
    assert GroupAt(idx, groups, p) && GroupAt(idx, groups, q);
    if p < q {
      GroupOrder(idx, groups, p, q);
    } else if q < p {
      GroupOrder(idx, groups, q, p);
    }
  }

  lemma GroupPlace(xs: seq<real>, idx: seq<Entry>, groups: seq<Group>, r: seq<real>, p: nat)
    requires Indexes(idx, xs) && Grouped(idx, groups) && RanksByGroup(idx, groups, r)
    requires p < |idx|
    ensures r[idx[p].0] == |Below(r, idx[p].0)| as real + (|Same(r, idx[p].0)| + 1) as real / 2.0
  {
    var a, g := idx[p].0, groups[p];
    assert g.lo <= p < g.hi <= |idx| by {
      assert GroupAt(idx, groups, p);
    }
    forall b: nat | b < |r|
      ensures b in Below(r, a) <==> b in PlacesOf(idx, 0, g.lo)
      ensures b in Same(r, a) <==> b in PlacesOf(idx, g.lo, g.hi) {
      assert Listed(idx, b);
      var q: nat :| q < |idx| && idx[q].0 == b;
      GroupCompare(xs, idx, groups, r, p, q);
      PlaceMember(idx, xs, 0, g.lo, q);
      PlaceMember(idx, xs, g.lo, g.hi, q);
    }
    PlacesInRange(idx, xs, 0, g.lo);
    PlacesInRange(idx, xs, g.lo, g.hi);
    assert Below(r, a) == PlacesOf(idx, 0, g.lo);
    assert Same(r, a) == PlacesOf(idx, g.lo, g.hi);
    PlacesCounted(idx, xs, 0, g.lo);
    PlacesCounted(idx, xs, g.lo, g.hi);
  }

  lemma GroupsRank(xs: seq<real>, idx: seq<Entry>, groups: seq<Group>, r: seq<real>)
    requires Indexes(idx, xs) && SortedByValue(idx) && Grouped(idx, groups) && RanksByGroup(idx, groups, r)
    ensures IsAverageRanking(xs, r)
  {
    forall a: nat, b: nat | a < |xs| && b < |xs| ensures TiesAt(xs, r, a, b) {
      assert Listed(idx, a) && Listed(idx, b);
      var p: nat :| p < |idx| && idx[p].0 == a;
      var q: nat :| q < |idx| && idx[q].0 == b;
      GroupTies(xs, idx, groups, r, p, q);
    }
    forall a: nat | a < |xs|
      ensures r[a] == |Below(r, a)| as real + (|Same(r, a)| + 1) as real / 2.0 {
      assert Listed(idx, a);
      var p: nat :| p < |idx| && idx[p].0 == a;
      GroupPlace(xs, idx, groups, r, p);
    }
  }

  // ---------- the sum of the ranks ----------

  ghost function GroupSum(groups: seq<Group>): real {
    if groups == [] then 0.0 else GroupSum(groups[..|groups| - 1]) + RankOf(groups[|groups| - 1])
  }

  lemma {:induction false} GroupSumGrow(groups: seq<Group>, n: nat, g: Group)
    ensures GroupSum(groups + seq(n, _ => g)) == GroupSum(groups) + Times(n as real, RankOf(g))
  {
    hide RankOf;
    var more := groups + seq(n, _ => g);
    if n == 0 {
      assert more == groups;
    } else {
      TimesNext(n - 1, RankOf(g));
      hide Times;
      GroupSumGrow(groups, n - 1, g);
      assert more[..|more| - 1] == groups + seq(n - 1, _ => g);
    }
  }

  function Triangle(n: nat): real {
    (n * (n + 1)) as real / 2.0
  }

  lemma NoGroups()
    ensures GroupSum([]) == Triangle(0)
  {
  }

  lemma TriangleGrow(i: nat, j: nat)
    requires i <= j
    ensures Triangle(i) + Times((j - i) as real, RankOf(Group(i, j))) == Triangle(j)
  {
    assert j * (j + 1) == i * (i + 1) + (j - i) * (i + j + 1);
    assert ((j - i) * (i + j + 1)) as real == (j - i) as real * (i + j + 1) as real;
  }

  /** The first hi places and the positions they list have the same sum. */
  lemma {:induction false} SumByPlace(xs: seq<real>, idx: seq<Entry>, groups: seq<Group>, m: map<nat, real>, hi: nat)
    requires Indexes(idx, xs) && hi <= |idx| == |groups|
    requires m.Keys == PlacesOf(idx, 0, hi)
    requires forall k :: 0 <= k < hi && idx[k].0 in m ==> m[idx[k].0] == RankOf(groups[k])
    ensures SumMap(m) == GroupSum(groups[..hi])
  {
    hide RankOf;
    if hi == 0 {
      assert m == map[];
    } else {
      var last := hi - 1;
      var a := idx[last].0;
      SumMapRemove(m, a);
      PlaceMember(idx, xs, 0, last, last);
      SumByPlace(xs, idx, groups, m - {a}, last);
      assert groups[..hi][..last] == groups[..last];
    }
  }

  lemma {:induction false} SumByPosition(r: seq<real>, m: map<nat, real>)
    requires forall a: nat :: a in m <==> a < |r|
    requires forall a: nat :: a < |r| ==> m[a] == r[a]
    ensures SumMap(m) == SumSeq(r)
  {
    if r == [] {
      assert m == map[];
    } else {
      var last: nat := |r| - 1;
      var front := r[..last];
      assert m[last] == r[last];
      assert r == front + [r[last]];
      SumMapRemove(m, last);
      SumByPosition(front, m - {last});
      SumSeqSnoc(front, r[last]);
    }
  }

  lemma RanksAddUp(xs: seq<real>, idx: seq<Entry>, groups: seq<Group>, r: seq<real>)
    requires Indexes(idx, xs) && RanksByGroup(idx, groups, r)
    ensures SumSeq(r) == GroupSum(groups)
  {
    hide RankOf;
    var m := map a: nat | a < |r| :: r[a];
    forall a: nat ensures a in m <==> a in PlacesOf(idx, 0, |idx|) {
      if a in m {
        assert Listed(idx, a);
        var q: nat :| q < |idx| && idx[q].0 == a;
        PlaceMember(idx, xs, 0, |idx|, q);
      } else {
        PlacesInRange(idx, xs, 0, |idx|);
      }
    }
    SumByPlace(xs, idx, groups, m, |idx|);
    assert groups[..|idx|] == groups;
    SumByPosition(r, m);
  }

  // ---------- ranks and Spearman ----------

  /** The end of the run of values tied with the one at place i. */
  method GroupEnd(idx: seq<Entry>, i: nat) returns (j: nat)
    requires SortedByValue(idx) && i < |idx|
    ensures i < j <= |idx|
    ensures forall m :: i <= m < j ==> idx[m].1 - idx[i].1 < TIE
    ensures j < |idx| ==> idx[j].1 - idx[i].1 >= TIE
  {
    var v := idx[i].1;
    j := i + 1;
    while j < |idx| && Abs(idx[j].1 - v) < TIE
      invariant i < j <= |idx|
      invariant forall m :: i <= m < j ==> idx[m].1 - v < TIE
    {
      j := j + 1;
    }
  }

  /** Average ranks: the unique average ranking, summing to n(n+1)/2 whatever the ties. */
  method Ranks(xs: seq<real>) returns (r: seq<real>)
    ensures IsAverageRanking(xs, r)
    ensures SumSeq(r) == Triangle(|xs|)
  {
    hide Triangle, Times, GroupSum, GroupAt, IsAverageRanking, SortedByValue, RankOf;
    var n := |xs|;
    var idx := SortByValue(xs);
    var out := new real[n](_ => 0.0);
    ghost var groups: seq<Group> := [];
    var i := 0;
    assert GroupSum(groups) == Triangle(0) by {
      NoGroups();
    }
    while i < n
      invariant 0 <= i <= n && |groups| == i && Grouped(idx, groups)
      invariant forall k :: 0 <= k < i ==> out[idx[k].0] == RankOf(groups[k])
      invariant GroupSum(groups) == Triangle(i)
    {
      var j := GroupEnd(idx, i);
      GroupedGrow(idx, groups, j);
      GroupSumGrow(groups, j - i, Group(i, j));
      TriangleGrow(i, j);
      ghost var grown := groups + seq(j - i, _ => Group(i, j));
      var avg := RankOf(Group(i, j));
      for k := i to j
        invariant forall m :: 0 <= m < k ==> out[idx[m].0] == RankOf(grown[m])
      {
        out[idx[k].0] := avg;
      }
      groups := grown;
      i := j;
    }
    r := out[..];
    GroupsRank(xs, idx, groups, r);
    RanksAddUp(xs, idx, groups, r);
  }

  /** The coefficient of the two rankings. */
  ghost predicate IsRankCoefficient(xs: seq<real>, ys: seq<real>, sqrt: real -> real, r: Option<real>)
    requires |xs| == |ys| > 0
  {
    exists rx, ry :: IsAverageRanking(xs, rx) && IsAverageRanking(ys, ry) && r == Coefficient(rx, ry, sqrt)
  }

  /** Rank correlation has one value. */
  lemma RankCoefficientUnique(xs: seq<real>, ys: seq<real>, sqrt: real -> real, r1: Option<real>, r2: Option<real>)
    requires |xs| == |ys| > 0
    requires IsRankCoefficient(xs, ys, sqrt, r1) && IsRankCoefficient(xs, ys, sqrt, r2)
    ensures r1 == r2
  {
    var rx, ry :| IsAverageRanking(xs, rx) && IsAverageRanking(ys, ry) && r1 == Coefficient(rx, ry, sqrt);
    var sx, sy :| IsAverageRanking(xs, sx) && IsAverageRanking(ys, sy) && r2 == Coefficient(sx, sy, sqrt);
    RankingUnique(xs, rx, sx);
    RankingUnique(ys, ry, sy);
  }

  /** Rank correlation only sees the order of well separated values. */
  lemma RankCoefficientByOrder(xs: seq<real>, ys: seq<real>, xs': seq<real>, sqrt: real -> real, r: Option<real>)
    requires |xs| == |ys| == |xs'| > 0 && Separated(xs) && Separated(xs')
    requires forall a: nat, b: nat :: a < |xs| && b < |xs| ==> (xs[a] < xs[b] <==> xs'[a] < xs'[b])
    requires IsRankCoefficient(xs, ys, sqrt, r)
    ensures IsRankCoefficient(xs', ys, sqrt, r)
  {
    var rx, ry :| IsAverageRanking(xs, rx) && IsAverageRanking(ys, ry) && r == Coefficient(rx, ry, sqrt);
    RankingByOrder(xs, xs', rx);
  }

  /** Pearson's coefficient of the two rankings of the trailing common part. */
  method Spearman(xs: seq<real>, ys: seq<real>, sqrt: real -> real) returns (r: Option<real>)
    requires IsSqrt(sqrt)
    ensures |xs| < 2 || |ys| < 2 ==> r == None
    ensures |xs| >= 2 && |ys| >= 2 ==>
              var n := if |xs| <= |ys| then |xs| else |ys|;
              IsRankCoefficient(Trailing(xs, n), Trailing(ys, n), sqrt, r)
    ensures r.Some? ==> -1.0 <= r.value <= 1.0
  {
    var n := if |xs| <= |ys| then |xs| else |ys|;
    if n < 2 {
      return None;
    }
    var rx := Ranks(Trailing(xs, n));
    var ry := Ranks(Trailing(ys, n));
    r := Pearson(rx, ry, sqrt);
    assert Trailing(rx, n) == rx && Trailing(ry, n) == ry;
  }
}
