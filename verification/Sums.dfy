/** Sums over maps and sequences of reals.
    HashMap iteration has no fixed order, so every sum over a map is defined by
    choosing keys one at a time, and the lemmas show the choice does not matter. */
module Sums {

  function Abs(x: real): (r: real)
    ensures r >= 0.0 && (r == x || r == -x)
  {
    if x < 0.0 then -x else x
  }

  function Min(x: real, y: real): (r: real)
    ensures r <= x && r <= y && (r == x || r == y)
  {
    if x <= y then x else y
  }

  function Max(x: real, y: real): (r: real)
    ensures r >= x && r >= y && (r == x || r == y)
  {
    if x >= y then x else y
  }

  function Clamp(x: real, lo: real, hi: real): (r: real)
    requires lo <= hi
    ensures lo <= r <= hi
    ensures lo <= x <= hi ==> r == x
  {
    if x < lo then lo else if x > hi then hi else x
  }

  /** Beyond a bound the result is that bound. */
  lemma ClampCuts(x: real, lo: real, hi: real)
    requires lo <= hi
    ensures x <= lo ==> Clamp(x, lo, hi) == lo
    ensures x >= hi ==> Clamp(x, lo, hi) == hi
  {
  }

  function GetOr<K>(m: map<K, real>, k: K, default: real): (r: real)
    ensures r == if k in m then m[k] else default
  {
    if k in m then m[k] else default
  }

  // ---------- sums over maps ----------

  ghost function SumMap<K>(m: map<K, real>): real
  {
    if m == map[] then 0.0 else
      var k :| k in m;
      m[k] + SumMap(m - {k})
  }

  /** Any key can be taken out first. */
  lemma {:induction false} SumMapRemove<K>(m: map<K, real>, k: K)
    requires k in m
    ensures SumMap(m) == m[k] + SumMap(m - {k})
    decreases |m|
  {
    var c :| c in m && SumMap(m) == m[c] + SumMap(m - {c});
    if c != k {
      SumMapRemove(m - {c}, k);
      SumMapRemove(m - {k}, c);
      assert m - {c} - {k} == m - {k} - {c};
    }
  }

  /** Writing one entry changes the sum by the difference of the two values. */
  lemma SumMapUpdate<K>(m: map<K, real>, k: K, v: real)
    ensures SumMap(m[k := v]) == SumMap(m) - GetOr(m, k, 0.0) + v
    ensures SumMap(m[k := v]) == SumMap(m - {k}) + v
  {
    var m' := m[k := v];
    SumMapRemove(m', k);
    assert m' - {k} == m - {k};
    if k in m {
      SumMapRemove(m, k);
    } else {
      assert m - {k} == m;
    }
  }

  lemma {:induction false} SumMapNonNegative<K>(m: map<K, real>)
    requires forall k :: k in m ==> m[k] >= 0.0
    ensures SumMap(m) >= 0.0
    ensures forall k :: k in m ==> m[k] <= SumMap(m)
    decreases |m|
  {
    if m != map[] {
      var c :| c in m && SumMap(m) == m[c] + SumMap(m - {c});
      SumMapNonNegative(m - {c});
      forall k | k in m ensures m[k] <= SumMap(m) {
        if k != c {
          assert (m - {c})[k] == m[k];
        }
      }
    }
  }

  /** Pointwise order of two maps over the same keys; the sums agree exactly when the maps do. */
  lemma {:induction false} SumMapMonotone<K>(m: map<K, real>, n: map<K, real>)
    requires m.Keys == n.Keys
    requires forall k :: k in m ==> m[k] <= n[k]
    ensures SumMap(m) <= SumMap(n)
    ensures SumMap(m) == SumMap(n) <==> m == n
    decreases |m|
  {
    if m == map[] {
      assert n == map[];
    } else {
      var c :| c in m;
      SumMapRemove(m, c);
      SumMapRemove(n, c);
      SumMapMonotone(m - {c}, n - {c});
      if m - {c} == n - {c} && m[c] == n[c] {
        assert m == (m - {c})[c := m[c]];
        assert n == (n - {c})[c := n[c]];
      }
    }
  }

  function Times(c: real, x: real): real { c * x }

  lemma TimesSum(c: real, x: real, y: real)
    ensures Times(c, x + y) == Times(c, x) + Times(c, y)
    ensures Times(c, 0.0) == 0.0
  {
  }

  /** Scaling every entry scales the sum. */
  lemma {:induction false} SumMapScale<K>(m: map<K, real>, n: map<K, real>, c: real)
    requires m.Keys == n.Keys
    requires forall k :: k in m ==> n[k] == Times(c, m[k])
    ensures SumMap(n) == Times(c, SumMap(m))
    decreases |m|
  {
    if m == map[] {
      assert n == map[];
      TimesSum(c, 0.0, 0.0);
    } else {
      var k :| k in m;
      SumMapRemove(m, k);
      SumMapRemove(n, k);
      SumMapScale(m - {k}, n - {k}, c);
      TimesSum(c, m[k], SumMap(m - {k}));
    }
  }

  /** Scaling by a factor in [0, 1] never makes a positive result larger than its base. */
  lemma TimesShrinks(x: real, ratio: real)
    requires 0.0 <= ratio <= 1.0
    ensures x >= 0.0 ==> 0.0 <= Times(x, ratio) <= x
    ensures x <= 0.0 ==> Times(x, ratio) <= 0.0
  {
    ProductShrinks(x, ratio);
  }

  lemma ProductShrinks(x: real, ratio: real)
    requires 0.0 <= ratio <= 1.0
    ensures x >= 0.0 ==> 0.0 <= x * ratio <= x
    ensures x <= 0.0 ==> x * ratio <= 0.0
  {
  }

  lemma NonNegativeProduct(x: real, y: real)
    requires x >= 0.0 && y >= 0.0
    ensures x * y >= 0.0 && Times(x, y) >= 0.0
  {
  }

  lemma PositiveTimes(x: real, y: real)
    requires x > 0.0 && y > 0.0
    ensures Times(x, y) > 0.0
  {
  }

  lemma ZeroProduct(x: real, y: real)
    requires Times(x, y) == 0.0 && y != 0.0
    ensures x == 0.0
  {
    assert x == x * y / y;
  }

  lemma TimesMonotone(x: real, y: real, c: real)
    requires x <= y && c >= 0.0
    ensures Times(x, c) <= Times(y, c)
  {
    assert (y - x) * c >= 0.0;
  }

  lemma QuotientMonotone(x: real, y: real, c: real)
    requires x <= y && c > 0.0
    ensures x / c <= y / c
  {
  }

  lemma QuotientTimes(x: real, c: real)
    requires c != 0.0
    ensures Times(x / c, c) == x
  {
  }

  lemma QuotientEnds(c: real)
    requires c != 0.0
    ensures 0.0 / c == 0.0 && c / c == 1.0
  {
  }

  lemma TimesCommutes(x: real, y: real)
    ensures Times(x, y) == Times(y, x)
  {
  }

  lemma TimesOne(x: real)
    ensures Times(x, 1.0) == x
  {
  }

  lemma TimesZero(x: real)
    ensures Times(0.0, x) == 0.0
  {
  }

  lemma TimesNext(n: nat, x: real)
    ensures Times((n + 1) as real, x) == Times(n as real, x) + x
    ensures Times(0 as real, x) == 0.0
  {
  }

  // ---------- sums over sequences ----------

  ghost function SumSeq(s: seq<real>): real
  {
    if s == [] then 0.0 else s[0] + SumSeq(s[1..])
  }

  lemma {:induction false} SumSeqAppend(s: seq<real>, t: seq<real>)
    ensures SumSeq(s + t) == SumSeq(s) + SumSeq(t)
  {
    if s == [] {
      assert s + t == t;
    } else {
      assert (s + t)[1..] == s[1..] + t;
      SumSeqAppend(s[1..], t);
    }
  }

  lemma SumSeqSnoc(s: seq<real>, x: real)
    ensures SumSeq(s + [x]) == SumSeq(s) + x
  {
    SumSeqAppend(s, [x]);
    assert SumSeq([x]) == x + SumSeq([]);
  }

  function LastOf<T>(s: seq<T>, n: nat): seq<T> {
    if |s| <= n then s else s[|s| - n..]
  }

  // ---------- sequences as multisets ----------

  function Without<T>(s: seq<T>, k: nat): seq<T>
    requires k < |s|
  {
    s[..k] + s[k + 1..]
  }

  lemma MultisetWithout<T>(s: seq<T>, k: nat)
    requires k < |s|
    ensures multiset(s) == multiset{s[k]} + multiset(Without(s, k))
    ensures multiset(Without(s, k)) == multiset(s) - multiset{s[k]}
  {
    assert s == s[..k] + [s[k]] + s[k + 1..];
  }

  /** Two permutations of one another stay so when an equal element is taken out of both. */
  lemma MatchFirst<T>(s: seq<T>, t: seq<T>) returns (k: nat)
    requires s != [] && multiset(s) == multiset(t)
    ensures k < |t| && t[k] == s[0]
    ensures multiset(s[1..]) == multiset(Without(t, k))
  {
    assert s[0] in multiset(t);
    k :| 0 <= k < |t| && t[k] == s[0];
    MultisetWithout(s, 0);
    assert Without(s, 0) == s[1..];
    MultisetWithout(t, k);
  }

  ghost predicate Distinct<T>(s: seq<T>) {
    forall i, j :: 0 <= i < j < |s| ==> s[i] != s[j]
  }

  lemma DistinctAppend<T>(s: seq<T>, t: seq<T>)
    requires Distinct(s) && Distinct(t) && forall x :: x in s ==> x !in t
    ensures Distinct(s + t)
  {
    forall i, j | 0 <= i < j < |s + t| ensures (s + t)[i] != (s + t)[j] {
      if i < |s| <= j {
        assert s[i] in s && t[j - |s|] in t;
      }
    }
  }
}
