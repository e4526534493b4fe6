/** Token embeddings and their cosine similarity by merge-join. */
module Embedding {
  import opened Sums
  import opened Lex
  import opened Correlation

  type Weighted = (string, real)
  type Vector = seq<Weighted>

  /** Strictly increasing tokens. */
  ghost predicate SortedByToken(v: Vector) {
    forall i, j :: 0 <= i < j < |v| ==> Less(v[i].0, v[j].0)
  }

  ghost function AsMap(v: Vector): map<string, real> {
    if v == [] then map[] else AsMap(v[1..])[v[0].0 := v[0].1]
  }

  /** The products of the weights of the tokens two maps share. */
  ghost function Shared(m: map<string, real>, n: map<string, real>): map<string, real> {
    map t | t in m && t in n :: Times(m[t], n[t])
  }

  ghost function Dot(m: map<string, real>, n: map<string, real>): real {
    SumMap(Shared(m, n))
  }

  // ---------- one step of the merge ----------

  lemma {:induction false} TokensBeyond(v: Vector, t: string)
    requires SortedByToken(v) && v != [] && Less(t, v[0].0)
    ensures t !in AsMap(v)
  {
    Trichotomy(t, v[0].0);
    if |v| > 1 {
      Transitive(t, v[0].0, v[1].0);
      TokensBeyond(v[1..], t);
    }
  }

  lemma HeadOnce(v: Vector)
    requires SortedByToken(v) && v != []
    ensures v[0].0 !in AsMap(v[1..])
    ensures AsMap(v) - {v[0].0} == AsMap(v[1..])
  {
    if |v| > 1 {
      TokensBeyond(v[1..], v[0].0);
    }
  }

  /** A token the other side lacks adds nothing. */
  lemma SkipHead(v: Vector, n: map<string, real>)
    requires SortedByToken(v) && v != [] && v[0].0 !in n
    ensures Dot(AsMap(v), n) == Dot(AsMap(v[1..]), n)
    ensures Dot(n, AsMap(v)) == Dot(n, AsMap(v[1..]))
  {
    HeadOnce(v);
    assert Shared(AsMap(v), n) == Shared(AsMap(v[1..]), n);
    assert Shared(n, AsMap(v)) == Shared(n, AsMap(v[1..]));
  }

  lemma SharedToken(m: map<string, real>, n: map<string, real>, t: string, x: real, y: real)
    requires t !in m && t !in n
    ensures Dot(m[t := x], n[t := y]) == Dot(m, n) + Times(x, y)
  {
    hide Times, SumMap;
    var all, rest := Shared(m[t := x], n[t := y]), Shared(m, n);
    assert all == rest[t := Times(x, y)];
    assert rest - {t} == rest;
    SumMapUpdate(rest, t, Times(x, y));
  }

  /** A common first token adds the product of its two weights. */
  lemma JoinHeads(v: Vector, w: Vector)
    requires SortedByToken(v) && SortedByToken(w) && v != [] && w != [] && v[0].0 == w[0].0
    ensures Dot(AsMap(v), AsMap(w)) == Dot(AsMap(v[1..]), AsMap(w[1..])) + Times(v[0].1, w[0].1)
  {
    hide Times, Dot;
    HeadOnce(v);
    HeadOnce(w);
    SharedToken(AsMap(v[1..]), AsMap(w[1..]), v[0].0, v[0].1, w[0].1);
  }

  lemma NothingShared(m: map<string, real>)
    ensures Dot(map[], m) == 0.0 && Dot(m, map[]) == 0.0
  {
    assert Shared(map[], m) == map[] && Shared(m, map[]) == map[];
  }

  /** The merge-join over two sorted vectors is the dot product over their shared tokens, clamped. */
  method CosineSimilarity(a: Vector, b: Vector) returns (r: real)
    requires SortedByToken(a) && SortedByToken(b)
    ensures r == Clamp(Dot(AsMap(a), AsMap(b)), 0.0, 1.0)
  {
    hide Times, Dot, AsMap;
    var i, j, dot := 0, 0, 0.0;
    while i < |a| && j < |b|
      invariant 0 <= i <= |a| && 0 <= j <= |b|
      invariant dot + Dot(AsMap(a[i..]), AsMap(b[j..])) == Dot(AsMap(a), AsMap(b))
      decreases |a| - i + |b| - j
    {
      var v, w := a[i..], b[j..];
      assert v[1..] == a[i + 1..] && w[1..] == b[j + 1..];
      Trichotomy(a[i].0, b[j].0);
      if a[i].0 == b[j].0 {
        JoinHeads(v, w);
        dot := dot + Times(a[i].1, b[j].1);
        i, j := i + 1, j + 1;
      } else if Less(a[i].0, b[j].0) {
        TokensBeyond(w, a[i].0);
        SkipHead(v, AsMap(w));
        i := i + 1;
      } else {
        TokensBeyond(v, b[j].0);
        SkipHead(w, AsMap(v));
        j := j + 1;
      }
    }
    EmptyVector(a[i..]);
    EmptyVector(b[j..]);
    NothingShared(AsMap(a[i..]));
    NothingShared(AsMap(b[j..]));
    r := Clamp(dot, 0.0, 1.0);
  }

  lemma EmptyVector(v: Vector)
    ensures v == [] ==> AsMap(v) == map[]
  {
  }

  // ---------- unit vectors ----------

  ghost function NormSquared(m: map<string, real>): real {
    SumMap(Squares(m))
  }

  ghost function Squares(m: map<string, real>): map<string, real> {
    map t | t in m :: Square(m[t])
  }

  ghost predicate UnitVector(m: map<string, real>) {
    NormSquared(m) == 1.0 && forall t :: t in m ==> m[t] >= 0.0
  }

  lemma NormRemove(m: map<string, real>, t: string)
    requires t in m
    ensures NormSquared(m) == NormSquared(m - {t}) + Square(m[t])
  {
    SumMapRemove(Squares(m), t);
    assert Squares(m) - {t} == Squares(m - {t});
  }

  lemma NormNonNegative(m: map<string, real>)
    ensures NormSquared(m) >= 0.0
  {
    SumMapNonNegative(Squares(m));
  }

  lemma DotWithout(m: map<string, real>, n: map<string, real>, t: string)
    requires t in m && t !in n
    ensures Dot(m, n) == Dot(m - {t}, n)
  {
    assert Shared(m, n) == Shared(m - {t}, n);
  }

  /** Twice the dot product is at most the sum of the squared norms, whatever keys are shared. */
  lemma {:induction false} DotBelowSquares(m: map<string, real>, n: map<string, real>)
    ensures 2.0 * Dot(m, n) <= NormSquared(m) + NormSquared(n)
    decreases |m|
  {
    hide Times, Square, Dot, NormSquared;
    NormNonNegative(m);
    NormNonNegative(n);
    if m == map[] {
      NothingShared(n);
    } else {
      var t :| t in m;
      var m' := m - {t};
      NormRemove(m, t);
      if t in n {
        var n' := n - {t};
        DotBelowSquares(m', n');
        NormRemove(n, t);
        SharedToken(m', n', t, m[t], n[t]);
        assert m'[t := m[t]] == m && n'[t := n[t]] == n;
        MeanOfSquares(m[t], n[t]);
      } else {
        DotBelowSquares(m', n);
        DotWithout(m, n, t);
        assert Square(m[t]) >= 0.0;
      }
    }
  }

  lemma MeanOfSquares(x: real, y: real)
    ensures 2.0 * Times(x, y) <= Square(x) + Square(y)
  {
    hide Square, Times;
    SquareOfDifference(x, y);
    assert Square(x - y) >= 0.0;
  }

  /** For unit vectors of non-negative weights the similarity is in [0, 1] without the clamp,
      and a vector compared with itself gives exactly 1. */
  lemma UnitDotInRange(m: map<string, real>, n: map<string, real>)
    requires UnitVector(m) && UnitVector(n)
    ensures 0.0 <= Dot(m, n) <= 1.0
    ensures Dot(m, m) == 1.0
  {
    DotBelowSquares(m, n);
    forall t | t in Shared(m, n) ensures Shared(m, n)[t] >= 0.0 {
      assert m[t] >= 0.0 && n[t] >= 0.0;
      NonNegativeProduct(m[t], n[t]);
    }
    SumMapNonNegative(Shared(m, n));
    assert Shared(m, m) == Squares(m);
  }

  // ---------- building an embedding ----------

  ghost function Occurs(tokens: seq<string>, t: string): nat {
    if tokens == [] then 0 else
      Occurs(tokens[..|tokens| - 1], t) + if tokens[|tokens| - 1] == t then 1 else 0
  }

  lemma {:induction false} OccursPositive(tokens: seq<string>, t: string)
    ensures Occurs(tokens, t) > 0 <==> t in tokens
  {
    if tokens != [] {
      OccursPositive(tokens[..|tokens| - 1], t);
      assert tokens == tokens[..|tokens| - 1] + [tokens[|tokens| - 1]];
    }
  }

  /** Each token's share of the list. */
  ghost predicate Frequencies(tf: map<string, real>, tokens: seq<string>, share: real) {
    && (forall t :: t in tf <==> t in tokens)
    && (forall t :: t in tf ==> tf[t] == Times(Occurs(tokens, t) as real, share))
  }

  method TermFrequencies(tokens: seq<string>, share: real) returns (tf: map<string, real>)
    ensures Frequencies(tf, tokens, share)
  {
    hide Times;
    tf := map[];
    for i := 0 to |tokens|
      invariant Frequencies(tf, tokens[..i], share)
    {
      var t := tokens[i];
      assert tokens[..i + 1] == tokens[..i] + [t];
      assert tokens[..i + 1][..i] == tokens[..i];
      OccursPositive(tokens[..i], t);
      TimesNext(Occurs(tokens[..i], t), share);
      tf := tf[t := GetOr(tf, t, 0.0) + share];
    }
    assert tokens[..|tokens|] == tokens;
  }

  method SumSquares(tf: map<string, real>) returns (total: real)
    ensures total == NormSquared(tf)
  {
    total := 0.0;
    var rest := tf.Keys;
    ghost var done: map<string, real> := map[];
    while rest != {}
      invariant rest <= tf.Keys && done.Keys == tf.Keys - rest
      invariant forall t :: t in done ==> done[t] == Square(tf[t])
      invariant total == SumMap(done)
      decreases |rest|
    {
      var t :| t in rest;
      SumMapUpdate(done, t, Square(tf[t]));
      assert done - {t} == done;
      done := done[t := Square(tf[t])];
      total := total + tf[t] * tf[t];
      rest := rest - {t};
    }
    assert done == Squares(tf);
  }

  lemma BeforeInserted(v: Vector, pos: nat, t: string)
    requires SortedByToken(v) && pos <= |v| && forall k :: 0 <= k < |v| ==> v[k].0 != t
    requires pos > 0 ==> !Less(t, v[pos - 1].0)
    ensures forall k :: 0 <= k < pos ==> Less(v[k].0, t)
  {
    forall k | 0 <= k < pos ensures Less(v[k].0, t) {
      Trichotomy(t, v[pos - 1].0);
      if k < pos - 1 {
        Transitive(v[k].0, v[pos - 1].0, t);
      }
    }
  }

  lemma InsertedSorted(v: Vector, pos: nat, e: Weighted)
    requires SortedByToken(v) && pos <= |v|
    requires forall k :: 0 <= k < pos ==> Less(v[k].0, e.0)
    requires forall k :: pos <= k < |v| ==> Less(e.0, v[k].0)
    ensures SortedByToken(v[..pos] + [e] + v[pos..])
    ensures forall x :: x in v[..pos] + [e] + v[pos..] <==> x in v || x == e
  {
    hide Less;
    assert v == v[..pos] + v[pos..];
  }

  /** Insert a new token into a sorted vector. */
  method InsertByToken(v: Vector, e: Weighted) returns (r: Vector)
    requires SortedByToken(v) && forall k :: 0 <= k < |v| ==> v[k].0 != e.0
    ensures SortedByToken(r)
    ensures forall x :: x in r <==> x in v || x == e
  {
    hide Less;
    var pos := |v|;
    while pos > 0 && Less(e.0, v[pos - 1].0)
      invariant 0 <= pos <= |v|
      invariant forall k :: pos <= k < |v| ==> Less(e.0, v[k].0)
    {
      pos := pos - 1;
    }
    r := v[..pos] + [e] + v[pos..];
    BeforeInserted(v, pos, e.0);
    InsertedSorted(v, pos, e);
  }

  lemma {:induction false} MapOfEntries(v: Vector, m: map<string, real>)
    requires SortedByToken(v)
    requires forall x :: x in v <==> x.0 in m && m[x.0] == x.1
    ensures AsMap(v) == m
  {
    if v == [] {
      forall t ensures t !in m {
        assert (t, GetOr(m, t, 0.0)) !in v;
      }
    } else {
      var m' := m - {v[0].0};
      forall x ensures x in v[1..] <==> x.0 in m' && m'[x.0] == x.1 {
        assert v == [v[0]] + v[1..];
        if x in v[1..] {
          var k :| 0 <= k < |v[1..]| && v[1..][k] == x;
          assert Less(v[0].0, v[k + 1].0);
          Trichotomy(v[0].0, x.0);
        }
      }
      MapOfEntries(v[1..], m');
    }
  }

  /** Scaled weights as a vector sorted by token. */
  method SortScaled(tf: map<string, real>, l2: real) returns (v: Vector)
    requires l2 > 0.0
    ensures SortedByToken(v)
    ensures AsMap(v) == map t | t in tf :: tf[t] / l2
  {
    v := [];
    var rest := tf.Keys;
    while rest != {}
      invariant rest <= tf.Keys && SortedByToken(v)
      invariant forall x :: x in v <==> x.0 in tf && x.0 !in rest && tf[x.0] / l2 == x.1
      decreases |rest|
    {
      var t :| t in rest;
      assert forall k :: 0 <= k < |v| ==> v[k] in v;
      v := InsertByToken(v, (t, tf[t] / l2));
      rest := rest - {t};
    }
    MapOfEntries(v, map t | t in tf :: tf[t] / l2);
  }

  /** Each token's share of all tokens. */
  ghost function Weights(tokens: seq<string>): map<string, real>
    requires tokens != []
  {
    map t | t in tokens :: Times(Occurs(tokens, t) as real, 1.0 / |tokens| as real)
  }

  const NORM_FLOOR: real := 0.000000000001

  lemma ScaledSquare(w: real, l2: real)
    requires l2 > 0.0
    ensures Square(w / l2) == Times(Square(1.0 / l2), Square(w))
  {
    var k := 1.0 / l2;
    assert w / l2 == w * k;
    assert (w * k) * (w * k) == (k * k) * (w * w);
  }

  /** Dividing weights by their norm gives a unit vector. */
  lemma ScaledIsUnit(m: map<string, real>, n: map<string, real>, l2: real)
    requires l2 > 0.0 && Square(l2) == NormSquared(m)
    requires n.Keys == m.Keys && forall t :: t in m ==> m[t] >= 0.0 && n[t] == m[t] / l2
    ensures UnitVector(n)
  {
    forall t | t in m ensures Squares(n)[t] == Times(Square(1.0 / l2), Squares(m)[t]) {
      ScaledSquare(m[t], l2);
    }
    SumMapScale(Squares(m), Squares(n), Square(1.0 / l2));
    UnitSquare(l2);
    forall t | t in n ensures n[t] >= 0.0 {
      QuotientNonNegative(m[t], l2);
    }
  }

  lemma UnitSquare(l2: real)
    requires l2 > 0.0
    ensures Times(Square(1.0 / l2), Square(l2)) == 1.0
  {
    var k := 1.0 / l2;
    assert k * l2 == 1.0;
    assert (k * k) * (l2 * l2) == (k * l2) * (k * l2);
  }

  lemma QuotientNonNegative(x: real, y: real)
    requires x >= 0.0 && y > 0.0
    ensures x / y >= 0.0
  {
  }

  /** The weights of a token list's embedding: its frequencies over their norm, none below the floor. */
  ghost function EmbeddingOf(tokens: seq<string>, sqrt: real -> real): map<string, real>
  {
    if tokens == [] then map[] else
      var l2 := sqrt(NormSquared(Weights(tokens)));
      if l2 < NORM_FLOOR then map[] else map t | t in tokens :: Weights(tokens)[t] / l2
  }

  /** A sorted vector of those weights. */
  ghost predicate IsEmbedding(v: Vector, tokens: seq<string>, sqrt: real -> real) {
    SortedByToken(v) && AsMap(v) == EmbeddingOf(tokens, sqrt)
  }

  lemma EmbeddingSorted(v: Vector, tokens: seq<string>, sqrt: real -> real)
    requires IsEmbedding(v, tokens, sqrt)
    ensures SortedByToken(v) && AsMap(v) == EmbeddingOf(tokens, sqrt)
  {
  }

  /** A unit vector of token frequencies; empty for no tokens or a norm below the floor. */
  method BuildEmbedding(tokens: seq<string>, sqrt: real -> real) returns (v: Vector)
    requires IsSqrt(sqrt)
    ensures IsEmbedding(v, tokens, sqrt)
    ensures v == [] <==> tokens == [] || sqrt(NormSquared(Weights(tokens))) < NORM_FLOOR
    ensures v != [] ==> UnitVector(AsMap(v))
  {
    if tokens == [] {
      return [];
    }
    var tf := TermFrequencies(tokens, 1.0 / |tokens| as real);
    assert tf == Weights(tokens);
    var total := SumSquares(tf);
    SumMapNonNegative(Squares(tf));
    var l2 := sqrt(total);
    if l2 < NORM_FLOOR {
      return [];
    }
    v := SortScaled(tf, l2);
    forall t | t in tf ensures tf[t] >= 0.0 {
      QuotientNonNegative(1.0, |tokens| as real);
      NonNegativeProduct(Occurs(tokens, t) as real, 1.0 / |tokens| as real);
    }
    ScaledIsUnit(tf, AsMap(v), l2);
    assert tokens[0] in AsMap(v);
  }

  /** The similarity of two market ids' embeddings, as a relationship score uses it: no clamp takes effect. */
  method Similarity(tokensA: seq<string>, tokensB: seq<string>, sqrt: real -> real)
    returns (r: real, a: Vector, b: Vector)
    requires IsSqrt(sqrt)
    ensures r == Dot(AsMap(a), AsMap(b))
    ensures a != [] && a == b ==> r == 1.0
  {
    a := BuildEmbedding(tokensA, sqrt);
    b := BuildEmbedding(tokensB, sqrt);
    r := CosineSimilarity(a, b);
    if a == [] || b == [] {
      NothingShared(AsMap(a));
      NothingShared(AsMap(b));
    } else {
      UnitDotInRange(AsMap(a), AsMap(b));
    }
  }

  // ---------- when there is an embedding ----------

  lemma {:induction false} OccursSome(tokens: seq<string>, t: string)
    requires t in tokens
    ensures Occurs(tokens, t) >= 1
  {
    var k := |tokens| - 1;
    if tokens[k] != t {
      OccursSome(tokens[..k], t);
    }
  }

  lemma RootAbove(sqrt: real -> real, x: real, w: real)
    requires IsSqrt(sqrt) && w > 0.0 && x >= Square(w)
    ensures sqrt(x) >= w
  {
    SquareOrder(w, sqrt(x));
  }

  lemma WeightAtLeast(occurs: nat, n: nat)
    requires occurs >= 1 && 1 <= n <= 1_000_000
    ensures Times(occurs as real, 1.0 / n as real) >= 0.000001
  {
    var share := 1.0 / n as real;
    assert share * n as real == 1.0;
    if share < 0.000001 {
      PositiveTimes(0.000001 - share, n as real);
    }
    TimesMonotone(1.0, occurs as real, share);
    TimesCommutes(1.0, share);
    TimesOne(share);
  }

  /** Up to a million tokens always have an embedding. */
  lemma FewTokensEmbed(tokens: seq<string>, sqrt: real -> real)
    requires 1 <= |tokens| <= 1_000_000 && IsSqrt(sqrt)
    ensures EmbeddingOf(tokens, sqrt) != map[]
  {
    var t, m := tokens[0], Weights(tokens);
    OccursSome(tokens, t);
    WeightAtLeast(Occurs(tokens, t), |tokens|);
    SumMapNonNegative(Squares(m));
    assert Squares(m)[t] == Square(m[t]) <= NormSquared(m);
    RootAbove(sqrt, NormSquared(m), m[t]);
    hide Weights;
    assert t in EmbeddingOf(tokens, sqrt);
  }
}
