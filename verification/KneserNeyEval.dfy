/** Classes that coincide, positivity of every probability, and what that means to the
    evaluators. */
module KneserNeyEval {
  import opened Interpolation
  import opened KneserNey
  import opened KneserNeyMass
  import opened KneserNeyTop
  import FairEvaluator

  // ----- degenerate cases -----

  /** Two classes that compute with the same numbers: discounts may differ where nothing is
      left to discount. */
  ghost predicate Agree(a: Model, b: Model) {
    && a.n == b.n
    && (forall total :: a.lower(total) == b.lower(total))
    && (forall c: nat, total: nat :: Positive(c as real - a.top(c, total)) == Positive(c as real - b.top(c, total)))
    && (forall row, right, total :: a.backoff(row, right, total) == b.backoff(row, right, total))
  }

  lemma {:induction false} AgreeBelow(a: Model, b: Model, t: Tables, k: nat, ctx: Gram, nxt: Byte)
    requires Agree(a, b) && Shaped(t, a.n) && 1 <= k <= a.n && |ctx| == k - 1
    ensures Continuation(a, t, k, ctx, nxt) == Continuation(b, t, k, ctx, nxt)
    decreases k
  {
    if k > 1 {
      AgreeBelow(a, b, t, k - 1, ctx[1..], nxt);
    }
  }

  lemma SameKept(c: nat, d: real, e: real, total: nat, backoff: real, p: real)
    requires total > 0 && Positive(c as real - d) == Positive(c as real - e)
    ensures Interpolate(c, d, total, backoff, p) == Interpolate(c, e, total, backoff, p)
  {
  }

  lemma AgreeOnTop(a: Model, b: Model, t: Tables, ctx: Gram, nxt: Byte)
    requires Agree(a, b) && Shaped(t, a.n) && a.n >= 1 && |ctx| == a.n - 1
    ensures HighestProb(a, t, ctx, nxt) == HighestProb(b, t, ctx, nxt)
  {
    if a.n > 1 {
      AgreeBelow(a, b, t, a.n - 1, ctx[1..], nxt);
      var total := Get(t.totals[a.n], ctx);
      if total > 0 {
        var row := RowOf(t.counts[a.n], ctx);
        var c := Get(row, nxt);
        SameKept(c, a.top(c, total), b.top(c, total), total, a.backoff(row, Get(t.right[a.n], ctx), total),
                 Continuation(a, t, a.n - 1, ctx[1..], nxt));
      }
    }
  }

  predicate Unit(mult: Tiers) {
    mult.sparse == 1.0 && mult.mid == 1.0 && mult.dense == 1.0
  }

  /** Clamping a modified discount again changes it at count 0 only, where nothing is kept anyway. */
  lemma UnitScale(d: real, c: nat, x: real)
    requires 0.01 <= d <= 0.99 && x == 1.0
    ensures c > 0 ==> Scaled(d, c, x) == ByCount(d, c)
    ensures Positive(c as real - Scaled(d, c, x)) == Positive(c as real - ByCount(d, c))
    ensures Clamp(d * x) == d
  {
    TimesOne(ByCount(d, c), x);
    TimesOne(d, x);
  }

  lemma HybridAgrees(n: nat, alpha: real, mult: Tiers)
    requires Unit(mult)
    ensures Agree(KnCtxMod(n, alpha, mult), ModifiedKneserNey(n, alpha))
  {
    forall c: nat, total: nat
      ensures var x := mult.At(total); var d := Clamp(alpha);
              && Positive(c as real - Scaled(d, c, x)) == Positive(c as real - ByCount(d, c))
              && Clamp(d * x) == d == Scaled(d, 2, x)
    {
      UnitScale(Clamp(alpha), c, mult.At(total));
      UnitScale(Clamp(alpha), 2, mult.At(total));
    }
  }

  lemma ExactHybridAgrees(n: nat, alpha: real, mult: Tiers)
    requires Unit(mult)
    ensures Agree(KnCtxModExact(n, alpha, mult, 1.0), ModifiedKneserNeyExact(n, alpha))
  {
    var a, b := KnCtxModExact(n, alpha, mult, 1.0), ModifiedKneserNeyExact(n, alpha);
    forall c: nat, total: nat
      ensures a.top(c, total) == b.top(c, total) && a.lower(total) == b.lower(total)
    {
      UnitScale(Clamp(alpha), c, mult.At(total));
    }
    forall row: Row, right: nat, total: nat
      ensures a.backoff(row, right, total) == b.backoff(row, right, total)
    {
      var exact := GammaBackoff(n, alpha, mult, 1.0, row, right, total);
    }
  }

  /** With all multipliers 1 the hybrid classes give, in every context and for every byte, the
      modified classes' probability: for any tables and any tier boundaries. */
  lemma DegenerateHybrids(n: nat, alpha: real, mult: Tiers, t: Tables, ctx: Gram, nxt: Byte)
    requires Unit(mult) && Shaped(t, n) && n >= 1 && |ctx| == n - 1
    ensures HighestProb(KnCtxMod(n, alpha, mult), t, ctx, nxt) == HighestProb(ModifiedKneserNey(n, alpha), t, ctx, nxt)
    ensures HighestProb(KnCtxModExact(n, alpha, mult, 1.0), t, ctx, nxt)
         == HighestProb(ModifiedKneserNeyExact(n, alpha), t, ctx, nxt)
  {
    HybridAgrees(n, alpha, mult);
    ExactHybridAgrees(n, alpha, mult);
    AgreeOnTop(KnCtxMod(n, alpha, mult), ModifiedKneserNey(n, alpha), t, ctx, nxt);
    AgreeOnTop(KnCtxModExact(n, alpha, mult, 1.0), ModifiedKneserNeyExact(n, alpha), t, ctx, nxt);
  }

  // ----- positivity -----

  /** A context with left extensions has continuations. */
  lemma ExtensionsFollow(t: Tables, data: Gram, n: nat, k: nat, ctx: Gram)
    requires TrainedOn(t, data, n) && 2 <= k <= n && |ctx| == k - 1
    ensures Total(LeftSeq(t, k, ctx)) > 0 ==> Get(t.right[k], ctx) > 0
  {
    var cs := LeftSeq(t, k, ctx);
    TotalZero(cs);
    if b: int :| 0 <= b < |cs| && cs[b] != 0 {
      assert b in RowOf(t.counts[k], ctx);
    }
  }

  lemma BlendPositive(m: Model, t: Tables, k: nat, ctx: Gram, nxt: Byte, lower: real)
    requires Discounting(m) && Shaped(t, m.n) && k <= m.n && lower > 0.0
    requires Total(LeftSeq(t, k, ctx)) > 0 ==> Get(t.right[k], ctx) > 0
    ensures Blend(m, t, k, ctx, nxt, lower) > 0.0
  {
    var den := Total(LeftSeq(t, k, ctx));
    if den > 0 {
      var d, right := m.lower(Get(t.totals[k], ctx)), Get(t.right[k], ctx);
      FlatSign(d, right);
      InterpolatePositive(|LeftsOf(t.left[k], ctx + [nxt])|, d, den, Flat(d, right), lower);
    }
  }

  lemma {:induction false} ContinuationPositive(m: Model, t: Tables, data: Gram, k: nat, ctx: Gram, nxt: Byte)
    requires Discounting(m) && TrainedOn(t, data, m.n) && 1 <= k <= m.n && |ctx| == k - 1
    ensures Continuation(m, t, k, ctx, nxt) > 0.0
    decreases k
  {
    if k > 1 {
      ContinuationPositive(m, t, data, k - 1, ctx[1..], nxt);
      ExtensionsFollow(t, data, m.n, k, ctx);
      BlendPositive(m, t, k, ctx, nxt, Continuation(m, t, k - 1, ctx[1..], nxt));
    }
  }

  /** What makes the highest order positive: something is handed to the lower order in every
      context seen. */
  ghost predicate HandsDown(m: Model) {
    forall row: Row, right, total :: row != map[] && right == |row| && (forall b :: b in row ==> row[b] > 0) ==>
      m.backoff(row, right, total) > 0.0
  }

  lemma TopBlendPositive(m: Model, t: Tables, ctx: Gram, nxt: Byte, lower: real)
    requires Shaped(t, m.n) && Get(t.totals[m.n], ctx) > 0 && lower > 0.0
    requires m.backoff(RowOf(t.counts[m.n], ctx), Get(t.right[m.n], ctx), Get(t.totals[m.n], ctx)) > 0.0
    ensures TopBlend(m, t, ctx, nxt, lower) > 0.0
  {
    var row, total := RowOf(t.counts[m.n], ctx), Get(t.totals[m.n], ctx);
    var c := Get(row, nxt);
    InterpolatePositive(c, m.top(c, total), total, m.backoff(row, Get(t.right[m.n], ctx), total), lower);
  }

  lemma BackoffPositive(m: Model, t: Tables, data: Gram, ctx: Gram, row: Row, right: nat, total: nat)
    requires HandsDown(m) && TrainedOn(t, data, m.n) && m.n >= 1 && |ctx| == m.n - 1
    requires row == RowOf(t.counts[m.n], ctx) && right == Get(t.right[m.n], ctx) && total == Get(t.totals[m.n], ctx) > 0
    ensures m.backoff(row, right, total) > 0.0
  {
    TrainedTop(t, data, m.n, ctx, row, total);
    assert CountsMean(t.counts[m.n], data, m.n, |data|);
  }

  lemma TopPositive(m: Model, t: Tables, ctx: Gram, nxt: Byte)
    requires Shaped(t, m.n) && m.n >= 1 && |ctx| == m.n - 1
    requires m.n > 1 ==> Continuation(m, t, m.n - 1, ctx[1..], nxt) > 0.0
    requires Get(t.totals[m.n], ctx) > 0 ==>
               m.backoff(RowOf(t.counts[m.n], ctx), Get(t.right[m.n], ctx), Get(t.totals[m.n], ctx)) > 0.0
    ensures HighestProb(m, t, ctx, nxt) > 0.0
  {
    if m.n > 1 && Get(t.totals[m.n], ctx) > 0 {
      TopBlendPositive(m, t, ctx, nxt, Continuation(m, t, m.n - 1, ctx[1..], nxt));
    }
  }

  /** Every byte has a positive probability in every context, so the evaluators' floor for
      probabilities at or below zero is never used. */
  lemma PositiveProb(m: Model, t: Tables, data: Gram, ctx: Gram, nxt: Byte)
    requires Discounting(m) && HandsDown(m) && TrainedOn(t, data, m.n) && m.n >= 1 && |ctx| == m.n - 1
    ensures HighestProb(m, t, ctx, nxt) > 0.0
  {
    if m.n > 1 {
      ContinuationPositive(m, t, data, m.n - 1, ctx[1..], nxt);
    }
    if Get(t.totals[m.n], ctx) > 0 {
      BackoffPositive(m, t, data, ctx, RowOf(t.counts[m.n], ctx), Get(t.right[m.n], ctx), Get(t.totals[m.n], ctx));
    }
    TopPositive(m, t, ctx, nxt);
  }

  lemma ExactMassPositive(m: Model, row: Row, total: nat)
    requires Discounting(m) && row != map[] && forall b :: b in row ==> row[b] > 0
    ensures ExactMass(m.top, row, total) > 0.0
  {
    ClassOfRow(row, 1);
    ClassOfRow(row, 2);
    ClassOfRow(row, 3);
    ClassesPartition(RowSeq(row));
    assert Support(RowSeq(row)) == row.Keys;
    FlatSign(m.top(1, total), ClassSize(row, 1));
    FlatSign(m.top(2, total), ClassSize(row, 2));
    FlatSign(m.top(3, total), ClassSize(row, 3));
  }

  lemma ProductPositive(x: real, y: real)
    requires x > 0.0 && y > 0.0
    ensures x * y > 0.0
  {
  }

  lemma FlatHandsDown(m: Model, disc: nat -> real)
    requires forall total :: disc(total) > 0.0
    requires forall row: Row, right, total :: m.backoff(row, right, total) == Flat(disc(total), right)
    ensures HandsDown(m)
  {
    forall row: Row, right: nat, total: nat | row != map[] && right == |row|
      ensures m.backoff(row, right, total) > 0.0
    {
      FlatSign(disc(total), right);
    }
  }

  /** The six classes, with any parameters except a gamma scale at or below zero. */
  ghost predicate IsClass(m: Model, alpha: real, mult: Tiers, gammaScale: real) {
    || m == KneserNeyModel(m.n, alpha)
    || m == ContextConditional(m.n, alpha, mult)
    || m == ModifiedKneserNey(m.n, alpha)
    || m == KnCtxMod(m.n, alpha, mult)
    || m == ModifiedKneserNeyExact(m.n, alpha)
    || (m == KnCtxModExact(m.n, alpha, mult, gammaScale) && gammaScale > 0.0)
  }

  lemma SixClasses(n: nat, alpha: real, mult: Tiers, gammaScale: real)
    requires gammaScale > 0.0
    ensures IsClass(KneserNeyModel(n, alpha), alpha, mult, gammaScale)
    ensures IsClass(ContextConditional(n, alpha, mult), alpha, mult, gammaScale)
    ensures IsClass(ModifiedKneserNey(n, alpha), alpha, mult, gammaScale)
    ensures IsClass(KnCtxMod(n, alpha, mult), alpha, mult, gammaScale)
    ensures IsClass(ModifiedKneserNeyExact(n, alpha), alpha, mult, gammaScale)
    ensures IsClass(KnCtxModExact(n, alpha, mult, gammaScale), alpha, mult, gammaScale)
  {
  }

  lemma ClassDiscounts(m: Model, alpha: real, mult: Tiers, gammaScale: real)
    requires IsClass(m, alpha, mult, gammaScale)
    ensures Discounting(m)
  {
    SingleDiscounts(m.n, alpha, mult);
    ModifiedDiscounts(m.n, alpha);
    HybridDiscounts(m.n, alpha, mult, gammaScale);
  }

  lemma FlatClasses(m: Model, alpha: real, mult: Tiers)
    requires m == KneserNeyModel(m.n, alpha) || m == ContextConditional(m.n, alpha, mult)
          || m == ModifiedKneserNey(m.n, alpha) || m == KnCtxMod(m.n, alpha, mult)
    ensures HandsDown(m)
  {
    var d := Clamp(alpha);
    if m == KneserNeyModel(m.n, alpha) || m == ModifiedKneserNey(m.n, alpha) {
      FlatHandsDown(m, (total: nat) => d);
    } else if m == ContextConditional(m.n, alpha, mult) {
      FlatHandsDown(m, m.lower);
    } else {
      FlatHandsDown(m, (total: nat) => Scaled(d, 2, mult.At(total)));
    }
  }

  lemma ExactHandsDown(n: nat, alpha: real)
    ensures HandsDown(ModifiedKneserNeyExact(n, alpha))
  {
    var m := ModifiedKneserNeyExact(n, alpha);
    ModifiedDiscounts(n, alpha);
    forall row: Row, right: nat, total: nat | row != map[] && forall b :: b in row ==> row[b] > 0
      ensures m.backoff(row, right, total) > 0.0
    {
      ExactMassPositive(m, row, total);
    }
  }

  lemma GammaHandsDown(m: Model, alpha: real, mult: Tiers, gammaScale: real)
    requires m == KnCtxModExact(m.n, alpha, mult, gammaScale) && gammaScale > 0.0
    ensures HandsDown(m)
  {
    HybridDiscounts(m.n, alpha, mult, gammaScale);
    forall row: Row, right: nat, total: nat | row != map[] && forall b :: b in row ==> row[b] > 0
      ensures m.backoff(row, right, total) > 0.0
    {
      ExactMassPositive(m, row, total);
      var exact := GammaBackoff(m.n, alpha, mult, gammaScale, row, right, total);
      ProductPositive(gammaScale, exact);
    }
  }

  lemma ClassHandsDown(m: Model, alpha: real, mult: Tiers, gammaScale: real)
    requires IsClass(m, alpha, mult, gammaScale)
    ensures HandsDown(m)
  {
    if m == ModifiedKneserNeyExact(m.n, alpha) {
      ExactHandsDown(m.n, alpha);
    } else if m == KnCtxModExact(m.n, alpha, mult, gammaScale) && gammaScale > 0.0 {
      GammaHandsDown(m, alpha, mult, gammaScale);
    } else {
      FlatClasses(m, alpha, mult);
    }
  }

  // ----- evaluation of a trained model -----

  const FLOOR := 1.0 / (256.0 * 1000.0)

  /** exp(-neg_log_prob), the score both evaluators use; the floor replaces a probability at or
      below zero. */
  function Scored(m: Model, t: Tables, ctx: Gram, nxt: Byte): real
    requires Shaped(t, m.n) && 1 <= m.n && |ctx| == m.n - 1
  {
    var p := HighestProb(m, t, ctx, nxt);
    if p <= 0.0 then FLOOR else p
  }

  /** Only a probability at or below zero is replaced, by a thousandth of a uniform byte's. */
  lemma FloorReplaces(m: Model, t: Tables, ctx: Gram, nxt: Byte)
    requires Shaped(t, m.n) && 1 <= m.n && |ctx| == m.n - 1
    ensures var p := HighestProb(m, t, ctx, nxt);
            Scored(m, t, ctx, nxt) == if p > 0.0 then p else 1.0 / 256000.0
  {
  }

  /** A trained model's score is its probability: the floor is never used. */
  lemma ScoreIsProb(m: Model, alpha: real, mult: Tiers, gammaScale: real, t: Tables, data: Gram, ctx: Gram, nxt: Byte)
    requires IsClass(m, alpha, mult, gammaScale)
    requires TrainedOn(t, data, m.n) && m.n >= 1 && |ctx| == m.n - 1
    ensures Scored(m, t, ctx, nxt) == HighestProb(m, t, ctx, nxt) > 0.0
  {
    ClassDiscounts(m, alpha, mult, gammaScale);
    ClassHandsDown(m, alpha, mult, gammaScale);
    PositiveProb(m, t, data, ctx, nxt);
  }

  /** The evaluator's Z for a trained model is the model's mass, and it is positive; so a model
      of mass 1 in a context is scored unchanged there. */
  lemma ZIsMass(m: Model, alpha: real, mult: Tiers, gammaScale: real, t: Tables, data: Gram, ctx: Gram,
                score: (Gram, Byte) -> real)
    requires IsClass(m, alpha, mult, gammaScale)
    requires TrainedOn(t, data, m.n) && m.n >= 1 && |ctx| == m.n - 1
    requires forall b: Byte :: score(ctx, b) == Scored(m, t, ctx, b)
    ensures FairEvaluator.Z(score, ctx) == TopMass(m, t, ctx) > 0.0
  {
    var ps := TopProbs(m, t, ctx);
    forall b: Byte
      ensures ps[b] == score(ctx, b) > 0.0
    {
      ScoreIsProb(m, alpha, mult, gammaScale, t, data, ctx, b);
      assert ps[b] == HighestProb(m, t, ctx, b);
    }
    FairEvaluator.ZIsSum(score, ctx, ps);
    FairEvaluator.SumPositive(score, ctx, VOCAB);
  }
}
