/** What the classes discount, and the probabilities they give after training, in terms of the training
    data alone. */
module KneserNeyFormulas {
  import opened Interpolation
  import opened KneserNey
  import opened KneserNeyMass
  import opened KneserNeyTop

  // ----- the discounts of each class -----

  /** The plain class discounts every count in every context by alpha, kept between 0.01 and 0.99. */
  lemma PlainDiscount(n: nat, alpha: real, c: nat, total: nat)
    ensures var m, d := KneserNeyModel(n, alpha), KneserNeyModel(n, alpha).lower(0);
            && m.n == n && m.lower(total) == m.top(c, total) == d
            && d == (if alpha < 0.01 then 0.01 else if alpha > 0.99 then 0.99 else alpha)
  {
  }

  /** The modified classes discount counts of one, two, and three or more by 0.7, 1 and 1.3 times alpha,
      with only the first product cut from below and only the last from above. */
  lemma ModifiedDiscount(n: nat, alpha: real, m: Model, c: nat, total: nat)
    requires m == ModifiedKneserNey(n, alpha) || m == ModifiedKneserNeyExact(n, alpha)
    ensures m.n == n && m.lower(total) == (if alpha < 0.01 then 0.01 else if alpha > 0.99 then 0.99 else alpha)
    ensures var d := m.lower(total);
            && m.top(0, total) == 0.0
            && m.top(1, total) == (if 0.7 * d < 0.01 then 0.01 else 0.7 * d)
            && m.top(2, total) == d
            && (c >= 3 ==> m.top(c, total) == if 1.3 * d > 0.99 then 0.99 else 1.3 * d)
    ensures 1 <= c ==> m.top(c, total) <= m.top(c + 1, total)
  {
  }

  /** The multiplier of a context total: the sparse test comes first. */
  lemma TierOf(mult: Tiers, total: nat)
    ensures total <= mult.sparseMax ==> mult.At(total) == mult.sparse
    ensures total > mult.sparseMax && total >= mult.denseMin ==> mult.At(total) == mult.dense
    ensures mult.sparseMax < total < mult.denseMin ==> mult.At(total) == mult.mid
  {
  }

  /** The context-conditional class multiplies alpha by the context's tier, in all orders. */
  lemma ContextDiscount(n: nat, alpha: real, mult: Tiers, c: nat, total: nat, x: real)
    requires x == mult.At(total)
    ensures var m := ContextConditional(n, alpha, mult);
            m.n == n && m.lower(total) == m.top(c, total) == Clamp(x * Clamp(alpha))
  {
  }

  /** A product kept between 0.01 and 0.99. */
  function CutProduct(d: real, x: real): real {
    var p := d * x;
    if p < 0.01 then 0.01 else if p > 0.99 then 0.99 else p
  }

  lemma CutIsClamp(d: real, x: real)
    ensures Clamp(d * x) == CutProduct(d, x)
  {
  }

  lemma ScaledIs(d: real, c: nat, x: real, e: real)
    requires e == ByCount(d, c)
    ensures Scaled(d, c, x) == CutProduct(e, x)
  {
    CutIsClamp(e, x);
  }

  lemma NothingScaled(d: real, x: real)
    ensures Scaled(d, 0, x) == 0.01
  {
    assert ByCount(d, 0) * x == 0.0;
  }

  lemma ByCountIs(d: real, c: nat)
    requires 0.01 <= d <= 0.99
    ensures c == 1 ==> ByCount(d, c) == if 0.7 * d < 0.01 then 0.01 else 0.7 * d
    ensures c == 2 ==> ByCount(d, c) == d
    ensures c >= 3 ==> ByCount(d, c) == if 1.3 * d > 0.99 then 0.99 else 1.3 * d
  {
  }

  /** The hybrids multiply the modified discounts by the context's tier and cut the product again; only
      the approximate one takes something, 0.01, from an absent continuation. */
  lemma HybridDiscount(n: nat, alpha: real, mult: Tiers, gammaScale: real, m: Model, c: nat, total: nat, x: real)
    returns (d1: real, d2: real, d3: real)
    requires m == KnCtxMod(n, alpha, mult) || m == KnCtxModExact(n, alpha, mult, gammaScale)
    requires x == mult.At(total)
    ensures d1 == (if 0.7 * d2 < 0.01 then 0.01 else 0.7 * d2)
    ensures d2 == (if alpha < 0.01 then 0.01 else if alpha > 0.99 then 0.99 else alpha)
    ensures d3 == (if 1.3 * d2 > 0.99 then 0.99 else 1.3 * d2)
    ensures m.n == n && m.lower(total) == CutProduct(d2, x)
    ensures m.top(1, total) == CutProduct(d1, x) && m.top(2, total) == CutProduct(d2, x)
    ensures c >= 3 ==> m.top(c, total) == CutProduct(d3, x)
    ensures m.top(0, total) == if m == KnCtxMod(n, alpha, mult) then 0.01 else 0.0
  {
    d2 := Clamp(alpha);
    d1, d3 := ByCount(d2, 1), ByCount(d2, 3);
    ByCountIs(d2, 1);
    ByCountIs(d2, 3);
    ScaledIs(d2, 1, x, d1);
    ScaledIs(d2, 2, x, d2);
    if c >= 3 {
      ScaledIs(d2, c, x, d3);
    }
    HybridLower(n, alpha, mult, gammaScale, total, d2, x);
    NothingScaled(d2, x);
    HybridAbsent(n, alpha, mult, gammaScale, total);
  }

  lemma HybridLower(n: nat, alpha: real, mult: Tiers, gammaScale: real, total: nat, d: real, x: real)
    requires d == Clamp(alpha) && x == mult.At(total)
    ensures KnCtxMod(n, alpha, mult).lower(total) == CutProduct(d, x)
    ensures KnCtxModExact(n, alpha, mult, gammaScale).lower(total) == CutProduct(d, x)
  {
    CutIsClamp(Clamp(alpha), mult.At(total));
  }

  lemma HybridAbsent(n: nat, alpha: real, mult: Tiers, gammaScale: real, total: nat)
    ensures KnCtxMod(n, alpha, mult).top(0, total) == 0.01
    ensures KnCtxModExact(n, alpha, mult, gammaScale).top(0, total) == 0.0
    ensures KnCtxMod(n, alpha, mult) != KnCtxModExact(n, alpha, mult, gammaScale)
  {
    NothingScaled(Clamp(alpha), mult.At(total));
  }

  /** A discount as often as there are continuations. */
  function Times(d: real, n: nat): real {
    d * n as real
  }

  lemma FlatIsTimes(d: real, n: nat)
    ensures Flat(d, n) == Times(d, n)
  {
    FlatIsProduct(d, n);
  }

  /** What the approximate classes hand to the lower order: one middle discount per continuation. */
  lemma ApproximateBackoff(n: nat, alpha: real, mult: Tiers, m: Model, row: Row, right: nat, total: nat)
    requires m == KneserNeyModel(n, alpha) || m == ContextConditional(n, alpha, mult)
          || m == ModifiedKneserNey(n, alpha) || m == KnCtxMod(n, alpha, mult)
    ensures m.backoff(row, right, total) == Times(m.top(2, total), right)
  {
    FlatIsTimes(m.top(2, total), right);
  }

  // ----- probabilities in terms of the data -----

  /** A discounted count and a share of what was handed on, as one fraction. */
  function Shared(c: nat, d: real, given: real, total: nat, lower: real): real
    requires total > 0
  {
    ((if c as real > d then c as real - d else 0.0) + given * lower) / total as real
  }

  lemma InterpolateIsShared(c: nat, d: real, given: real, total: nat, lower: real)
    requires total > 0
    ensures Interpolate(c, d, total, given, lower) == Shared(c, d, given, total, lower)
  {
    ScaleRatio(given, lower, total as real);
    AddOver(Positive(c as real - d), given * lower, total as real);
  }

  /** A count over a total, each with a constant added; no total counts as one. */
  function Smoothed(c: nat, total: nat, eps: real): real
    requires eps > 0.0
  {
    (c as real + eps) / ((if total == 0 then 1 else total) as real + 256.0 * eps)
  }

  lemma LeftTotal(t: Tables, data: Gram, n: nat)
    requires TrainedOn(t, data, n) && n >= 2
    ensures t.dotDot == Total(LeftCounts(data, []))
  {
    forall w: Byte
      ensures Get(t.leftByte, w) == LeftCounts(data, [])[w]
    {
      assert [] + [w] == [w];
    }
    assert RowSeq(t.leftByte) == LeftCounts(data, []);
  }

  lemma UnigramIs(m: Model, t: Tables, b: Byte)
    requires Shaped(t, m.n) && m.n >= 1
    ensures Continuation(m, t, 1, [], b) == Smoothed(Get(t.leftByte, b), t.dotDot, 0.000000001)
  {
  }

  /** The lowest order: the distinct bytes before a byte, against those before all bytes. */
  lemma UnigramOnData(m: Model, t: Tables, data: Gram, b: Byte)
    requires TrainedOn(t, data, m.n) && m.n >= 2
    ensures Continuation(m, t, 1, [], b) == Smoothed(|Lefts(data, [b])|, Total(LeftCounts(data, [])), 0.000000001)
  {
    LeftTotal(t, data, m.n);
    UnigramIs(m, t, b);
  }

  lemma ContinuationIs(m: Model, t: Tables, k: nat, ctx: Gram, b: Byte, cs: seq<nat>, right: nat, d: real, lower: real)
    requires Shaped(t, m.n) && 2 <= k <= m.n && |ctx| == k - 1 && Level(t, k, ctx, cs, right)
    requires d == m.lower(Get(t.totals[k], ctx)) && lower == Continuation(m, t, k - 1, ctx[1..], b)
    ensures Continuation(m, t, k, ctx, b)
         == if Total(cs) == 0 then lower else Shared(cs[b], d, Times(d, right), Total(cs), lower)
  {
    if Total(cs) > 0 {
      FlatIsTimes(d, right);
      InterpolateIsShared(cs[b], d, Flat(d, right), Total(cs), lower);
    }
  }

  /** A higher continuation order: the distinct bytes before the gram, less the context's discount, and
      one discount per distinct continuation for the next order down, over the distinct bytes before all
      continuations; without any of these the next order down alone. */
  lemma ContinuationOnData(m: Model, t: Tables, data: Gram, k: nat, ctx: Gram, b: Byte) returns (d: real, den: nat)
    requires TrainedOn(t, data, m.n) && 2 <= k <= m.n && |ctx| == k - 1
    ensures d == m.lower(Total(Occurrences(data, ctx))) && den == Total(LeftCounts(data, ctx))
    ensures var lower := Continuation(m, t, k - 1, ctx[1..], b);
            Continuation(m, t, k, ctx, b)
            == if den == 0 then lower
               else Shared(|Lefts(data, ctx + [b])|, d, Times(d, |Followers(data, ctx)|), den, lower)
  {
    d, den := m.lower(Total(Occurrences(data, ctx))), Total(LeftCounts(data, ctx));
    TableTotal(t, data, m.n, k, ctx);
    TrainedLevel(t, data, m.n, k, ctx);
    ContinuationIs(m, t, k, ctx, b, LeftCounts(data, ctx), |Followers(data, ctx)|, d,
                   Continuation(m, t, k - 1, ctx[1..], b));
  }

  /** How often each byte follows a context in the data. */
  function Occurrences(data: Gram, ctx: Gram): (cs: seq<nat>)
    ensures |cs| == VOCAB && forall b: Byte :: cs[b] == Count(data, ctx + [b])
  {
    seq(VOCAB, b requires 0 <= b < VOCAB => Count(data, ctx + [b]))
  }

  lemma TableTotal(t: Tables, data: Gram, n: nat, k: nat, ctx: Gram)
    requires TrainedOn(t, data, n) && 1 <= k <= n && |ctx| == k - 1
    ensures RowSeq(RowOf(t.counts[k], ctx)) == Occurrences(data, ctx)
    ensures Get(t.totals[k], ctx) == Total(Occurrences(data, ctx))
  {
    forall b: Byte
      ensures RowSeq(RowOf(t.counts[k], ctx))[b] == Occurrences(data, ctx)[b]
    {
      TableRow(t, data, n, k, ctx, b);
    }
    assert RowSeq(RowOf(t.counts[k], ctx)) == Occurrences(data, ctx);
    assert TotalsMean(t.totals[k], t.counts[k]);
  }

  lemma TopIs(m: Model, t: Tables, ctx: Gram, b: Byte, c: nat, right: nat, total: nat, lower: real)
    requires Shaped(t, m.n) && m.n >= 2 && |ctx| == m.n - 1 && total == Get(t.totals[m.n], ctx)
    requires c == Get(RowOf(t.counts[m.n], ctx), b) && right == Get(t.right[m.n], ctx)
    requires lower == Continuation(m, t, m.n - 1, ctx[1..], b)
    ensures HighestProb(m, t, ctx, b)
         == if total == 0 then lower
            else Shared(c, m.top(c, total), m.backoff(RowOf(t.counts[m.n], ctx), right, total), total, lower)
  {
    if total > 0 {
      InterpolateIsShared(c, m.top(c, total), m.backoff(RowOf(t.counts[m.n], ctx), right, total), total, lower);
    }
  }

  /** The highest order: the occurrences of the gram, less the discount of that count in that context,
      and the class's back-off for the continuation order below, over the occurrences of the context; a
      context never seen leaves the order below alone. */
  lemma TopOnData(m: Model, t: Tables, data: Gram, ctx: Gram, b: Byte) returns (c: nat, total: nat, given: real)
    requires TrainedOn(t, data, m.n) && m.n >= 2 && |ctx| == m.n - 1
    ensures c == Count(data, ctx + [b]) && total == Total(Occurrences(data, ctx))
    ensures given == m.backoff(RowOf(t.counts[m.n], ctx), |Followers(data, ctx)|, total)
    ensures var lower := Continuation(m, t, m.n - 1, ctx[1..], b);
            HighestProb(m, t, ctx, b) == if total == 0 then lower else Shared(c, m.top(c, total), given, total, lower)
  {
    c, total := Count(data, ctx + [b]), Total(Occurrences(data, ctx));
    given := m.backoff(RowOf(t.counts[m.n], ctx), |Followers(data, ctx)|, total);
    TableTotal(t, data, m.n, m.n, ctx);
    TableRow(t, data, m.n, m.n, ctx, b);
    TableRight(t, data, m.n, m.n, ctx);
    TopIs(m, t, ctx, b, c, |Followers(data, ctx)|, total, Continuation(m, t, m.n - 1, ctx[1..], b));
  }

  lemma SingleIs(m: Model, t: Tables, b: Byte)
    requires Shaped(t, m.n) && m.n == 1
    ensures HighestProb(m, t, [], b) == Smoothed(Get(RowOf(t.counts[1], []), b), Get(t.totals[1], []), 0.001)
  {
  }

  /** With n = 1: relative frequencies with a thousandth added to each count. */
  lemma SingleOnData(m: Model, t: Tables, data: Gram, b: Byte)
    requires TrainedOn(t, data, m.n) && m.n == 1
    ensures HighestProb(m, t, [], b) == Smoothed(Count(data, [b]), |data|, 0.001)
  {
    SingleTables(t, data, b);
    SingleIs(m, t, b);
  }

  lemma SingleTables(t: Tables, data: Gram, b: Byte)
    requires TrainedOn(t, data, 1)
    ensures Get(RowOf(t.counts[1], []), b) == Count(data, [b]) && Get(t.totals[1], []) == |data|
  {
    assert [] + [b] == [b];
    TableRow(t, data, 1, 1, [], b);
    TableTotal(t, data, 1, 1, []);
    BytesTotal(data, |data|);
    AllBytes(data);
  }

  function OccurrencesBelow(data: Gram, n: nat): (cs: seq<nat>)
    ensures |cs| == VOCAB && forall b: Byte :: cs[b] == Occ(data, [b], n)
  {
    seq(VOCAB, b requires 0 <= b < VOCAB => Occ(data, [b], n))
  }

  lemma AllBytes(data: Gram)
    ensures OccurrencesBelow(data, |data|) == Occurrences(data, [])
  {
    forall b: Byte
      ensures OccurrencesBelow(data, |data|)[b] == Occurrences(data, [])[b]
    {
      assert [] + [b] == [b];
    }
  }

  lemma {:induction false} BytesTotal(data: Gram, n: nat)
    requires n <= |data|
    ensures Total(OccurrencesBelow(data, n)) == n
  {
    if n == 0 {
      TotalZero(OccurrencesBelow(data, 0));
    } else {
      BytesTotal(data, n - 1);
      var before, w := OccurrencesBelow(data, n - 1), data[n - 1];
      OneMoreByte(data, n);
      TotalSet(before, w, before[w] + 1);
    }
  }

  lemma EndsWithByte(data: Gram, b: Byte, i: nat)
    requires i < |data|
    ensures EndsAt(data, [b], i) <==> b == data[i]
  {
    assert data[i..i + 1] == [data[i]];
  }

  lemma OneMoreByte(data: Gram, n: nat)
    requires 0 < n <= |data|
    ensures var before, w := OccurrencesBelow(data, n - 1), data[n - 1];
            OccurrencesBelow(data, n) == before[w := before[w] + 1]
  {
    forall b: Byte
      ensures Occ(data, [b], n) == Occ(data, [b], n - 1) + if b == data[n - 1] then 1 else 0
    {
      EndsWithByte(data, b, n - 1);
    }
  }
}
