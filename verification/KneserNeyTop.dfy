/** The highest order of the Kneser-Ney classes: the mass each class gives out, the classes that
    coincide, and positivity of every probability. */
module KneserNeyTop {
  import opened Interpolation
  import opened KneserNey
  import opened KneserNeyMass

  // ----- the classes discount properly -----

  lemma ClampRange()
    ensures forall d :: 0.01 <= Clamp(d) <= 0.99
    ensures forall d :: 0.01 <= d <= 0.99 ==> Clamp(d) == d
    ensures forall d :: d < 0.01 ==> Clamp(d) == 0.01
    ensures forall d :: d > 0.99 ==> Clamp(d) == 0.99
  {
  }

  /** The class with built-in tiers: contexts seen once or twice are discounted by 1.3 alpha, those seen
      eleven times or more by 0.6 alpha, and the rest by alpha as it is; only the upper bound can cut
      the first and only the lower bound the second. */
  lemma BuiltInDiscounts(n: nat, alpha: real, total: nat)
    ensures var m, d := ContextConditional(n, alpha, BUILT_IN_TIERS), Clamp(alpha);
            && (total <= 2 ==> m.lower(total) == (if 1.3 * d > 0.99 then 0.99 else 1.3 * d) >= d)
            && (3 <= total <= 10 ==> m.lower(total) == d)
            && (total >= 11 ==> m.lower(total) == (if 0.6 * d < 0.01 then 0.01 else 0.6 * d) <= d)
  {
    ClampRange();
    var x := BUILT_IN_TIERS.At(total);
    assert total <= 2 ==> x * Clamp(alpha) == 1.3 * Clamp(alpha);
    assert total >= 11 ==> x * Clamp(alpha) == 0.6 * Clamp(alpha);
    assert 3 <= total <= 10 ==> x * Clamp(alpha) == Clamp(alpha);
  }

  lemma ByCountRange(d: real)
    requires 0.01 <= d <= 0.99
    ensures forall c :: c > 0 ==> 0.01 <= ByCount(d, c) <= 0.99
    ensures forall c :: c > 3 ==> ByCount(d, c) == ByCount(d, 3)
  {
  }

  lemma SingleDiscounts(n: nat, alpha: real, mult: Tiers)
    ensures Discounting(KneserNeyModel(n, alpha)) && Discounting(ContextConditional(n, alpha, mult))
  {
    ClampRange();
  }

  lemma ModifiedDiscounts(n: nat, alpha: real)
    ensures Discounting(ModifiedKneserNey(n, alpha)) && Discounting(ModifiedKneserNeyExact(n, alpha))
  {
    ClampRange();
    ByCountRange(Clamp(alpha));
  }

  lemma ScaledRange(d: real, c: nat, x: real)
    ensures 0.01 <= Scaled(d, c, x) <= 0.99
    ensures c > 3 ==> Scaled(d, c, x) == Scaled(d, 3, x)
  {
    if c > 3 {
      assert ByCount(d, c) == ByCount(d, 3);
    }
  }

  lemma HybridDiscounts(n: nat, alpha: real, mult: Tiers, gammaScale: real)
    ensures Discounting(KnCtxMod(n, alpha, mult)) && Discounting(KnCtxModExact(n, alpha, mult, gammaScale))
  {
    ClampRange();
    var d := Clamp(alpha);
    var m, e := KnCtxMod(n, alpha, mult), KnCtxModExact(n, alpha, mult, gammaScale);
    forall c: nat, total: nat
      ensures 0.01 <= m.top(c, total) <= 0.99 && (c > 3 ==> m.top(c, total) == m.top(3, total))
      ensures c > 0 ==> 0.01 <= e.top(c, total) <= 0.99
      ensures c > 3 ==> e.top(c, total) == e.top(3, total)
      ensures e.top(0, total) == 0.0
    {
      ScaledRange(d, c, mult.At(total));
    }
  }

  // ----- the mass of a seen context -----

  /** What the tables say about a highest-order context seen in training, without reference to
      the data. */
  ghost predicate TopLevel(t: Tables, n: nat, ctx: Gram, row: Row, total: nat)
    requires n < |t.counts| && n < |t.totals| && n < |t.right|
  {
    && row == RowOf(t.counts[n], ctx) && total == Get(t.totals[n], ctx) == Total(RowSeq(row)) && total > 0
    && ClassSize(row, 1) == ClassCount(RowSeq(row), 1)
    && ClassSize(row, 2) == ClassCount(RowSeq(row), 2)
    && ClassSize(row, 3) == ClassCount(RowSeq(row), 3)
    && ClassSize(row, 1) + ClassSize(row, 2) + ClassSize(row, 3) == |row| == Get(t.right[n], ctx) && |row| > 0
  }

  lemma TrainedTop(t: Tables, data: Gram, n: nat, ctx: Gram, row: Row, total: nat)
    requires TrainedOn(t, data, n) && n >= 1 && |ctx| == n - 1
    requires row == RowOf(t.counts[n], ctx) && total == Get(t.totals[n], ctx) > 0
    ensures TopLevel(t, n, ctx, row, total)
  {
    assert CountsMean(t.counts[n], data, n, |data|);
    ClassOfRow(row, 1);
    ClassOfRow(row, 2);
    ClassOfRow(row, 3);
    ClassesPartition(RowSeq(row));
    assert Support(RowSeq(row)) == row.Keys;
    SupportEmpty(RowSeq(row));
  }

  lemma TopIsBlend(m: Model, t: Tables, ctx: Gram) returns (ps: seq<real>, qs: seq<real>)
    requires Shaped(t, m.n) && m.n >= 2 && |ctx| == m.n - 1
    ensures |ps| == |qs| == VOCAB
    ensures Sum(ps) == TopMass(m, t, ctx) && Sum(qs) == LowerMass(m, t, m.n - 1, ctx[1..])
    ensures Get(t.totals[m.n], ctx) == 0 ==> ps == qs
    ensures Get(t.totals[m.n], ctx) > 0 ==> forall b: Byte :: ps[b] == TopBlend(m, t, ctx, b, qs[b])
  {
    ps, qs := TopProbs(m, t, ctx), LowerProbs(m, t, m.n - 1, ctx[1..]);
    forall b: Byte
      ensures ps[b] == if Get(t.totals[m.n], ctx) == 0 then qs[b] else TopBlend(m, t, ctx, b, qs[b])
    {
      assert ps[b] == HighestProb(m, t, ctx, b);
      assert qs[b] == Continuation(m, t, m.n - 1, ctx[1..], b);
    }
    if Get(t.totals[m.n], ctx) == 0 {
      assert ps == qs;
    }
  }

  /** A context never seen in training has the lower order's mass. */
  lemma UnseenTopMass(m: Model, t: Tables, ctx: Gram)
    requires Shaped(t, m.n) && m.n >= 2 && |ctx| == m.n - 1 && Get(t.totals[m.n], ctx) == 0
    ensures TopMass(m, t, ctx) == LowerMass(m, t, m.n - 1, ctx[1..])
  {
    var ps, qs := TopIsBlend(m, t, ctx);
  }

  lemma TopInterpolates(m: Model, t: Tables, ctx: Gram, row: Row, disc: nat -> real, total: nat, backoff: real)
    returns (ps: seq<real>, qs: seq<real>)
    requires Shaped(t, m.n) && m.n >= 2 && |ctx| == m.n - 1
    requires row == RowOf(t.counts[m.n], ctx) && total == Get(t.totals[m.n], ctx) > 0
    requires backoff == m.backoff(row, Get(t.right[m.n], ctx), total) && forall c :: disc(c) == m.top(c, total)
    ensures Sum(ps) == TopMass(m, t, ctx) && Sum(qs) == LowerMass(m, t, m.n - 1, ctx[1..])
    ensures Interpolates(ps, disc, RowSeq(row), total, backoff, qs)
  {
    ps, qs := TopIsBlend(m, t, ctx);
    forall b | 0 <= b < VOCAB
      ensures ps[b] == Interpolate(RowSeq(row)[b], disc(RowSeq(row)[b]), total, backoff, qs[b])
    {
      assert ps[b] == TopBlend(m, t, ctx, b, qs[b]);
    }
  }

  /** The probabilities of a context seen in training interpolate the counts of its row. */
  lemma SeenTop(m: Model, t: Tables, ctx: Gram, row: Row, total: nat, disc: nat -> real, backoff: real)
    returns (ps: seq<real>, qs: seq<real>, removed: real)
    requires Discounting(m) && Shaped(t, m.n) && m.n >= 2 && |ctx| == m.n - 1 && TopLevel(t, m.n, ctx, row, total)
    requires backoff == m.backoff(row, |row|, total) && forall c :: disc(c) == m.top(c, total)
    ensures Sum(ps) == TopMass(m, t, ctx) && Sum(qs) == LowerMass(m, t, m.n - 1, ctx[1..])
    ensures Interpolates(ps, disc, RowSeq(row), total, backoff, qs) && total == Total(RowSeq(row)) && Proper(disc)
    ensures ClassSize(row, 1) + ClassSize(row, 2) + ClassSize(row, 3) == |row|
    ensures var n1, n2, n3 := ClassSize(row, 1), ClassSize(row, 2), ClassSize(row, 3);
            && n1 == ClassCount(RowSeq(row), 1) && n2 == ClassCount(RowSeq(row), 2) && n3 == ClassCount(RowSeq(row), 3)
            && removed == Removed(disc, n1, n2, n3) > 0.0
  {
    ps, qs := TopInterpolates(m, t, ctx, row, disc, total, backoff);
    removed := Removed(disc, ClassSize(row, 1), ClassSize(row, 2), ClassSize(row, 3));
    RemovedPositive(disc, ClassSize(row, 1), ClassSize(row, 2), ClassSize(row, 3));
  }

  /** The mass of a context seen in training, exactly, for any class. */
  lemma SeenTopMass(m: Model, t: Tables, ctx: Gram, row: Row, total: nat, disc: nat -> real, backoff: real)
    returns (mass: real, lower: real, removed: real)
    requires Discounting(m) && Shaped(t, m.n) && m.n >= 2 && |ctx| == m.n - 1 && TopLevel(t, m.n, ctx, row, total)
    requires backoff == m.backoff(row, |row|, total) && forall c :: disc(c) == m.top(c, total)
    ensures mass == TopMass(m, t, ctx) && lower == LowerMass(m, t, m.n - 1, ctx[1..])
    ensures removed == Removed(disc, ClassSize(row, 1), ClassSize(row, 2), ClassSize(row, 3)) > 0.0
    ensures mass == 1.0 + (backoff * lower - removed) / total as real
  {
    var ps, qs, taken := SeenTop(m, t, ctx, row, total, disc, backoff);
    mass := Sum(ps);
    var n1, n2, n3;
    lower, n1, n2, n3, removed := InterpolatedMass(ps, disc, RowSeq(row), total, backoff, qs);
  }

  // ----- classes that hand back exactly what they remove -----

  ghost predicate ReturnsRemoved(m: Model, row: Row, total: nat) {
    m.backoff(row, ClassSize(row, 1) + ClassSize(row, 2) + ClassSize(row, 3), total) == ExactMass(m.top, row, total)
  }

  lemma ExactMassIsRemoved(top: (nat, nat) -> real, row: Row, total: nat, disc: nat -> real, n1: nat, n2: nat, n3: nat)
    requires disc(1) == top(1, total) && disc(2) == top(2, total) && disc(3) == top(3, total)
    requires n1 == ClassSize(row, 1) && n2 == ClassSize(row, 2) && n3 == ClassSize(row, 3)
    ensures ExactMass(top, row, total) == Removed(disc, n1, n2, n3)
  {
  }

  lemma SingleReturns(m: Model, row: Row, total: nat, d: real, n: nat)
    requires n == ClassSize(row, 1) + ClassSize(row, 2) + ClassSize(row, 3)
    requires m.top(1, total) == d && m.top(2, total) == d && m.top(3, total) == d
    requires m.backoff(row, n, total) == Flat(d, n)
    ensures ReturnsRemoved(m, row, total)
  {
    var disc := (c: nat) => d;
    ExactMassIsRemoved(m.top, row, total, disc, ClassSize(row, 1), ClassSize(row, 2), ClassSize(row, 3));
    RemovedFlat(disc, d, ClassSize(row, 1), ClassSize(row, 2), ClassSize(row, 3), n);
  }

  /** Plain and context-conditional models hand back one discount per continuation, which is what
      they removed; the exact models compute the removed mass by class. */
  lemma WhoReturns(n: nat, alpha: real, mult: Tiers, row: Row, total: nat)
    ensures ReturnsRemoved(KneserNeyModel(n, alpha), row, total)
    ensures ReturnsRemoved(ContextConditional(n, alpha, mult), row, total)
    ensures ReturnsRemoved(ModifiedKneserNeyExact(n, alpha), row, total)
  {
    var right := ClassSize(row, 1) + ClassSize(row, 2) + ClassSize(row, 3);
    SingleReturns(KneserNeyModel(n, alpha), row, total, Clamp(alpha), right);
    var m := ContextConditional(n, alpha, mult);
    SingleReturns(m, row, total, m.lower(total), right);
  }

  lemma HybridReturns(n: nat, alpha: real, mult: Tiers, row: Row, total: nat)
    ensures ReturnsRemoved(KnCtxModExact(n, alpha, mult, 1.0), row, total)
  {
  }

  /** For a class whose back-off is its removed mass times a scale, a seen context has mass 1
      exactly when the scale undoes the lower order's mass. */
  lemma ScaledTopMass(m: Model, t: Tables, ctx: Gram, row: Row, total: nat, scale: real, exact: real)
    returns (lower: real)
    requires Discounting(m) && Shaped(t, m.n) && m.n >= 2 && |ctx| == m.n - 1 && TopLevel(t, m.n, ctx, row, total)
    requires exact == ExactMass(m.top, row, total) && m.backoff(row, |row|, total) == scale * exact
    ensures lower == LowerMass(m, t, m.n - 1, ctx[1..])
    ensures TopMass(m, t, ctx) == 1.0 <==> scale * lower == 1.0
  {
    var backoff := m.backoff(row, |row|, total);
    var disc := (c: nat) => m.top(c, total);
    var mass, removed;
    mass, lower, removed := SeenTopMass(m, t, ctx, row, total, disc, backoff);
    ExactMassIsRemoved(m.top, row, total, disc, ClassSize(row, 1), ClassSize(row, 2), ClassSize(row, 3));
    ScaledVerdict(scale, total, lower, backoff, exact, removed, mass);
  }

  lemma ReturnedLevel(m: Model, t: Tables, ctx: Gram, row: Row, total: nat)
    requires Discounting(m) && Shaped(t, m.n) && m.n >= 2 && |ctx| == m.n - 1 && TopLevel(t, m.n, ctx, row, total)
    requires ReturnsRemoved(m, row, total)
    ensures TopMass(m, t, ctx) == 1.0 <==> LowerMass(m, t, m.n - 1, ctx[1..]) == 1.0
  {
    var lower := ScaledTopMass(m, t, ctx, row, total, 1.0, ExactMass(m.top, row, total));
  }

  /** For a class that hands back what it removes, a context has mass 1 exactly when the rest of
      the context has. */
  lemma ReturnedTopMass(m: Model, t: Tables, data: Gram, ctx: Gram, row: Row, total: nat)
    requires Discounting(m) && TrainedOn(t, data, m.n) && m.n >= 2 && |ctx| == m.n - 1
    requires row == RowOf(t.counts[m.n], ctx) && total == Get(t.totals[m.n], ctx)
    requires ReturnsRemoved(m, row, total)
    ensures TopMass(m, t, ctx) == 1.0 <==> LowerMass(m, t, m.n - 1, ctx[1..]) == 1.0
  {
    if total == 0 {
      UnseenTopMass(m, t, ctx);
    } else {
      TrainedTop(t, data, m.n, ctx, row, total);
      ReturnedLevel(m, t, ctx, row, total);
    }
  }

  /** The normalisation claim of the exact classes, with its exact condition: after training on at
      least two bytes, all 256 probabilities of a context sum to 1 if and only if no suffix of the
      context's tail is a defect of the training data. */
  lemma ExactTopProper(m: Model, t: Tables, data: Gram, ctx: Gram, row: Row, total: nat)
    requires Discounting(m) && TrainedOn(t, data, m.n) && m.n >= 2 && |ctx| == m.n - 1 && |data| >= 2
    requires row == RowOf(t.counts[m.n], ctx) && total == Get(t.totals[m.n], ctx)
    requires ReturnsRemoved(m, row, total)
    ensures TopMass(m, t, ctx) == 1.0 <==> NoDefect(data, ctx[1..])
  {
    ReturnedTopMass(m, t, data, ctx, row, total);
    ContinuationProper(m, t, data, m.n - 1, ctx[1..]);
  }

  /** ExactTopProper for each class that promises a proper distribution. */
  lemma ClassesProper(alpha: real, mult: Tiers, m: Model, t: Tables, data: Gram, ctx: Gram)
    requires m == KneserNeyModel(m.n, alpha) || m == ContextConditional(m.n, alpha, mult)
          || m == ModifiedKneserNeyExact(m.n, alpha) || m == KnCtxModExact(m.n, alpha, mult, 1.0)
    requires TrainedOn(t, data, m.n) && m.n >= 2 && |ctx| == m.n - 1 && |data| >= 2
    ensures TopMass(m, t, ctx) == 1.0 <==> NoDefect(data, ctx[1..])
  {
    var row, total := RowOf(t.counts[m.n], ctx), Get(t.totals[m.n], ctx);
    SingleDiscounts(m.n, alpha, mult);
    ModifiedDiscounts(m.n, alpha);
    HybridDiscounts(m.n, alpha, mult, 1.0);
    WhoReturns(m.n, alpha, mult, row, total);
    HybridReturns(m.n, alpha, mult, row, total);
    ExactTopProper(m, t, data, ctx, row, total);
  }

  /** Defects exist, so the lower order is not always proper: after training on 0 1 0 2, byte 0
      is one. */
  lemma DefectExists()
    ensures Defect([0, 1, 0, 2], [0])
  {
    var data: Gram, s: Gram := [0, 1, 0, 2], [0];
    assert data[..1] == s && data[..2] == [0, 1];
    forall i | EndsAt(data, data[..2], i)
      ensures i <= 1
    {
      assert data[i - 1..i + 1][0] == data[i - 1] && data[i - 1..i + 1][1] == data[i];
    }
    assert data[2..3] == s && FollowedAt(data, s, 3);
  }

  lemma GammaBackoff(n: nat, alpha: real, mult: Tiers, gammaScale: real, row: Row, right: nat, total: nat)
    returns (exact: real)
    ensures var m := KnCtxModExact(n, alpha, mult, gammaScale);
            exact == ExactMass(m.top, row, total) && m.backoff(row, right, total) == gammaScale * exact
  {
    exact := ExactMass(KnCtxModExact(n, alpha, mult, gammaScale).top, row, total);
  }

  /** KnCtxModExact with any gamma scale: a seen context has mass 1 exactly when the scale undoes
      the lower order's mass. */
  lemma GammaTopMass(alpha: real, mult: Tiers, gammaScale: real, m: Model, t: Tables, data: Gram, ctx: Gram)
    returns (lower: real)
    requires m == KnCtxModExact(m.n, alpha, mult, gammaScale)
    requires m.n >= 2 && TrainedOn(t, data, m.n) && |ctx| == m.n - 1 && Get(t.totals[m.n], ctx) > 0
    ensures lower == LowerMass(m, t, m.n - 1, ctx[1..])
    ensures TopMass(m, t, ctx) == 1.0 <==> gammaScale * lower == 1.0
  {
    HybridDiscounts(m.n, alpha, mult, gammaScale);
    var row, total := RowOf(t.counts[m.n], ctx), Get(t.totals[m.n], ctx);
    TrainedTop(t, data, m.n, ctx, row, total);
    var exact := GammaBackoff(m.n, alpha, mult, gammaScale, row, |row|, total);
    lower := ScaledTopMass(m, t, ctx, row, total, gammaScale, exact);
  }

  // ----- the approximate classes -----

  /** What the approximation (one middle discount per continuation) gives out too much or too
      little in a seen context over a proper lower order. */
  lemma MiddleTopMass(m: Model, t: Tables, ctx: Gram, row: Row, total: nat, disc: nat -> real)
    returns (n1: nat, n3: nat, excess: real)
    requires Discounting(m) && Shaped(t, m.n) && m.n >= 2 && |ctx| == m.n - 1 && TopLevel(t, m.n, ctx, row, total)
    requires forall c :: disc(c) == m.top(c, total)
    requires LowerMass(m, t, m.n - 1, ctx[1..]) == 1.0
    requires m.backoff(row, |row|, total) == Flat(disc(2), |row|)
    ensures n1 == ClassSize(row, 1) && n3 == ClassSize(row, 3)
    ensures excess == Flat(disc(2) - disc(1), n1) - Flat(disc(3) - disc(2), n3)
    ensures TopMass(m, t, ctx) == 1.0 + excess / total as real
  {
    var backoff := m.backoff(row, |row|, total);
    var ps, qs, removed := SeenTop(m, t, ctx, row, total, disc, backoff);
    n1, n3, excess := MiddleMass(ps, disc, RowSeq(row), total, backoff, qs, |row|);
  }

  lemma ModifiedExcess(alpha: real, m: Model, t: Tables, data: Gram, ctx: Gram, row: Row, total: nat, disc: nat -> real)
    returns (n1: nat, n3: nat, excess: real)
    requires m == ModifiedKneserNey(m.n, alpha) && m.n >= 2 && TrainedOn(t, data, m.n) && |ctx| == m.n - 1
    requires row == RowOf(t.counts[m.n], ctx) && total == Get(t.totals[m.n], ctx) > 0
    requires LowerMass(m, t, m.n - 1, ctx[1..]) == 1.0
    requires forall c :: disc(c) == ByCount(Clamp(alpha), c)
    ensures n1 == ClassSize(row, 1) && n3 == ClassSize(row, 3)
    ensures excess == Flat(disc(2) - disc(1), n1) - Flat(disc(3) - disc(2), n3)
    ensures TopMass(m, t, ctx) == 1.0 + excess / total as real
  {
    ModifiedDiscounts(m.n, alpha);
    TrainedTop(t, data, m.n, ctx, row, total);
    n1, n3, excess := MiddleTopMass(m, t, ctx, row, total, disc);
  }

  lemma HybridExcess(alpha: real, mult: Tiers, m: Model, t: Tables, data: Gram, ctx: Gram, row: Row, total: nat,
                     disc: nat -> real)
    returns (n1: nat, n3: nat, excess: real)
    requires m == KnCtxMod(m.n, alpha, mult) && m.n >= 2 && TrainedOn(t, data, m.n) && |ctx| == m.n - 1
    requires row == RowOf(t.counts[m.n], ctx) && total == Get(t.totals[m.n], ctx) > 0
    requires LowerMass(m, t, m.n - 1, ctx[1..]) == 1.0
    requires forall c :: disc(c) == Scaled(Clamp(alpha), c, mult.At(total))
    ensures n1 == ClassSize(row, 1) && n3 == ClassSize(row, 3)
    ensures excess == Flat(disc(2) - disc(1), n1) - Flat(disc(3) - disc(2), n3)
    ensures TopMass(m, t, ctx) == 1.0 + excess / total as real
  {
    HybridDiscounts(m.n, alpha, mult, 1.0);
    TrainedTop(t, data, m.n, ctx, row, total);
    n1, n3, excess := MiddleTopMass(m, t, ctx, row, total, disc);
  }

  /** The steps between the discounts, times the numbers of continuations seen once and often. */
  function Excess(d12: real, n1: nat, d23: real, n3: nat): real {
    d12 * n1 as real - d23 * n3 as real
  }

  lemma ExcessIsFlat(d12: real, n1: nat, d23: real, n3: nat)
    ensures Excess(d12, n1, d23, n3) == Flat(d12, n1) - Flat(d23, n3)
  {
    FlatIsProduct(d12, n1);
    FlatIsProduct(d23, n3);
  }

  /** Approximate Modified-KN over a proper lower order: a seen context has mass
      1 + ((D2 - D1) N1 - (D3 - D2) N3) / total. */
  lemma ModifiedTopMass(alpha: real, m: Model, t: Tables, data: Gram, ctx: Gram, row: Row, total: nat,
                        disc: nat -> real)
    returns (excess: real)
    requires m == ModifiedKneserNey(m.n, alpha) && m.n >= 2 && TrainedOn(t, data, m.n) && |ctx| == m.n - 1
    requires row == RowOf(t.counts[m.n], ctx) && total == Get(t.totals[m.n], ctx) > 0
    requires LowerMass(m, t, m.n - 1, ctx[1..]) == 1.0
    requires forall c :: disc(c) == ByCount(Clamp(alpha), c)
    ensures excess == Excess(disc(2) - disc(1), ClassSize(row, 1), disc(3) - disc(2), ClassSize(row, 3))
    ensures TopMass(m, t, ctx) == 1.0 + excess / total as real
  {
    var n1, n3;
    n1, n3, excess := ModifiedExcess(alpha, m, t, data, ctx, row, total, disc);
    ExcessIsFlat(disc(2) - disc(1), n1, disc(3) - disc(2), n3);
  }

  /** The same for KnCtxMod, whose discounts depend on how often the context was seen. */
  lemma HybridTopMass(alpha: real, mult: Tiers, m: Model, t: Tables, data: Gram, ctx: Gram, row: Row, total: nat,
                      disc: nat -> real)
    returns (excess: real)
    requires m == KnCtxMod(m.n, alpha, mult) && m.n >= 2 && TrainedOn(t, data, m.n) && |ctx| == m.n - 1
    requires row == RowOf(t.counts[m.n], ctx) && total == Get(t.totals[m.n], ctx) > 0
    requires LowerMass(m, t, m.n - 1, ctx[1..]) == 1.0
    requires forall c :: disc(c) == Scaled(Clamp(alpha), c, mult.At(total))
    ensures excess == Excess(disc(2) - disc(1), ClassSize(row, 1), disc(3) - disc(2), ClassSize(row, 3))
    ensures TopMass(m, t, ctx) == 1.0 + excess / total as real
  {
    var n1, n3;
    n1, n3, excess := HybridExcess(alpha, mult, m, t, data, ctx, row, total, disc);
    ExcessIsFlat(disc(2) - disc(1), n1, disc(3) - disc(2), n3);
  }

  // ----- n = 1 -----

  lemma UnigramTopSum(m: Model, t: Tables, cs: seq<nat>, total: nat, den: real) returns (sum: real)
    requires Shaped(t, m.n) && m.n == 1 && cs == RowSeq(RowOf(t.counts[1], [])) && total == Get(t.totals[1], [])
    requires den == (if total == 0 then 1 else total) as real + 256.0 * 0.001
    ensures TopMass(m, t, []) == sum / den && sum == Total(cs) as real + 256.0 * 0.001
  {
    var ps := TopProbs(m, t, []);
    forall b | 0 <= b < VOCAB
      ensures ps[b] == (cs[b] as real + 0.001) / den
    {
      assert ps[b] == HighestProb(m, t, [], b);
    }
    sum := SumSmoothed(ps, cs, 0.001, den);
  }

  lemma SeenByte(t: Tables, data: Gram, n: nat)
    requires TrainedOn(t, data, n) && n >= 1
    ensures Get(t.totals[1], []) == Total(RowSeq(RowOf(t.counts[1], [])))
    ensures Get(t.totals[1], []) > 0 <==> data != []
  {
    var cs := RowSeq(RowOf(t.counts[1], []));
    TotalZero(cs);
    if data != [] {
      var b := data[0];
      TableRow(t, data, n, 1, [], b);
      assert data[0..1] == [] + [b] && EndsAt(data, [] + [b], 0);
      OccPositive(data, [] + [b], |data|);
      assert cs[b] > 0;
    } else {
      forall b: Byte
        ensures cs[b] == 0
      {
        TableRow(t, data, n, 1, [], b);
      }
    }
  }

  lemma UnigramTables(m: Model, t: Tables, cs: seq<nat>, total: nat)
    requires Shaped(t, m.n) && m.n == 1
    requires cs == RowSeq(RowOf(t.counts[1], [])) && total == Get(t.totals[1], []) == Total(cs)
    ensures TopMass(m, t, []) == if total > 0 then 1.0 else 0.256 / 1.256
  {
    var den := (if total == 0 then 1 else total) as real + 256.0 * 0.001;
    var sum := UnigramTopSum(m, t, cs, total, den);
    if total > 0 {
      SelfRatio(sum, den);
    }
  }

  /** With n = 1 the distribution is proper exactly when anything was trained. */
  lemma UnigramTopMass(m: Model, t: Tables, data: Gram)
    requires TrainedOn(t, data, m.n) && m.n == 1
    ensures TopMass(m, t, []) == if data != [] then 1.0 else 0.256 / 1.256
  {
    SeenByte(t, data, 1);
    UnigramTables(m, t, RowSeq(RowOf(t.counts[1], [])), Get(t.totals[1], []));
  }
}
