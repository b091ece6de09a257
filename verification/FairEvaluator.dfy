/** The held-out evaluators: the raw one, and the one that divides every score by the sum of its
    context's scores. A model is its order n and its scores exp(-neg_log_prob(ctx, byte)). */
module FairEvaluator {
  import opened KneserNey
  import opened Interpolation

  const TINY := 0.000000000001

  /** The scores of the bytes below w, added up. */
  function SumUpTo(score: (Gram, Byte) -> real, ctx: Gram, w: nat): real
    requires w <= VOCAB
  {
    if w == 0 then 0.0 else SumUpTo(score, ctx, w - 1) + score(ctx, w - 1)
  }

  function Z(score: (Gram, Byte) -> real, ctx: Gram): real {
    SumUpTo(score, ctx, VOCAB)
  }

  /** The probability that goes into the logarithm. */
  function Renormalised(score: (Gram, Byte) -> real, ctx: Gram, nxt: Byte, z: real): real {
    var p := if z > 0.0 then score(ctx, nxt) / z else TINY;
    if p <= 0.0 then TINY else p
  }

  function Context(data: Gram, start: nat, i: nat): Gram
    requires start <= i <= |data|
  {
    data[i - start..i]
  }

  /** Loss over the positions below i, with every Z recomputed from scratch. */
  function FairLoss(score: (Gram, Byte) -> real, log: real -> real, data: Gram, start: nat, i: nat): real
    requires start <= i <= |data|
  {
    if i == start then 0.0
    else
      var ctx := Context(data, start, i - 1);
      FairLoss(score, log, data, start, i - 1) - log(Renormalised(score, ctx, data[i - 1], Z(score, ctx)))
  }

  function RawLoss(score: (Gram, Byte) -> real, log: real -> real, data: Gram, start: nat, i: nat): real
    requires start <= i <= |data|
  {
    if i == start then 0.0
    else RawLoss(score, log, data, start, i - 1) - log(score(Context(data, start, i - 1), data[i - 1]))
  }

  /** Every cached sum is what recomputing it would give. */
  ghost predicate Cached(score: (Gram, Byte) -> real, cache: map<Gram, real>) {
    forall ctx :: ctx in cache ==> cache[ctx] == Z(score, ctx)
  }

  method SumScores(score: (Gram, Byte) -> real, ctx: Gram) returns (z: real)
    ensures z == Z(score, ctx)
  {
    z := 0.0;
    for w := 0 to VOCAB
      invariant z == SumUpTo(score, ctx, w)
    {
      z := z + score(ctx, w);
    }
  }

  /** The renormalising evaluator, cache included, computes the loss without a cache. */
  method FairEval(n: nat, score: (Gram, Byte) -> real, log: real -> real, data: Gram) returns (total: real, count: nat)
    ensures var start := if n == 0 then 0 else n - 1;
            if start <= |data| then total == FairLoss(score, log, data, start, |data|) && count == |data| - start
            else total == 0.0 && count == 0
  {
    var start := if n == 0 then 0 else n - 1;
    total, count := 0.0, 0;
    var cache: map<Gram, real> := map[];
    var i := start;
    while i < |data|
      invariant start <= i && (i <= |data| || i == start)
      invariant Cached(score, cache)
      invariant if i <= |data| then total == FairLoss(score, log, data, start, i) else total == 0.0
      invariant count == i - start
    {
      var ctx := Context(data, start, i);
      var z;
      if ctx in cache {
        z := cache[ctx];
      } else {
        z := SumScores(score, ctx);
        cache := cache[ctx := z];
      }
      var p := score(ctx, data[i]);
      p := if z > 0.0 then p / z else TINY;
      if p <= 0.0 {
        p := TINY;
      }
      total := total - log(p);
      count, i := count + 1, i + 1;
    }
  }

  method RawEval(n: nat, score: (Gram, Byte) -> real, log: real -> real, data: Gram) returns (total: real, count: nat)
    requires n >= 1
    ensures if n - 1 <= |data| then total == RawLoss(score, log, data, n - 1, |data|) && count == |data| - (n - 1)
            else total == 0.0 && count == 0
  {
    total, count := 0.0, 0;
    var start := n - 1;
    var i := start;
    while i < |data|
      invariant start <= i && (i <= |data| || i == start)
      invariant if i <= |data| then total == RawLoss(score, log, data, start, i) else total == 0.0
      invariant count == i - start
    {
      total := total - log(score(Context(data, start, i), data[i]));
      count, i := count + 1, i + 1;
    }
  }

  lemma {:induction false} SumPositive(score: (Gram, Byte) -> real, ctx: Gram, w: nat)
    requires w <= VOCAB && forall b: Byte :: score(ctx, b) > 0.0
    ensures SumUpTo(score, ctx, w) >= 0.0 && (w > 0 ==> SumUpTo(score, ctx, w) > 0.0)
  {
    if w > 0 {
      SumPositive(score, ctx, w - 1);
    }
  }

  lemma {:induction false} SumOver(score: (Gram, Byte) -> real, ctx: Gram, z: real, ps: seq<real>, w: nat)
    returns (sum: real)
    requires z > 0.0 && w <= |ps| == VOCAB && forall b: Byte :: ps[b] == score(ctx, b) / z
    ensures sum == SumUpTo(score, ctx, w) && Sum(ps[..w]) == sum / z
  {
    if w == 0 {
      sum := 0.0;
      assert ps[..0] == [];
    } else {
      var front := SumOver(score, ctx, z, ps, w - 1);
      assert ps[..w][..w - 1] == ps[..w - 1];
      assert ps[w - 1] == score(ctx, w - 1) / z;
      AddOver(front, score(ctx, w - 1), z);
      sum := front + score(ctx, w - 1);
    }
  }

  /** Positive scores, divided by their sum, are a proper distribution, and no fallback is used. */
  lemma RenormalisedMass(score: (Gram, Byte) -> real, ctx: Gram, ps: seq<real>)
    requires |ps| == VOCAB && forall b: Byte :: ps[b] == Renormalised(score, ctx, b, Z(score, ctx))
    requires forall b: Byte :: score(ctx, b) > 0.0
    ensures Z(score, ctx) > 0.0 && Sum(ps) == 1.0
    ensures forall b: Byte :: ps[b] == score(ctx, b) / Z(score, ctx) > 0.0
  {
    SumPositive(score, ctx, VOCAB);
    var z := Z(score, ctx);
    forall b: Byte
      ensures ps[b] == score(ctx, b) / z > 0.0
    {
      QuotientPositive(score(ctx, b), z);
    }
    var sum := SumOver(score, ctx, z, ps, VOCAB);
    assert ps[..VOCAB] == ps;
    SelfRatio(sum, z);
  }

  lemma QuotientPositive(x: real, z: real)
    requires x > 0.0 && z > 0.0
    ensures x / z > 0.0
  {
  }

  /** A model that is already proper in every context is scored the same by both evaluators. */
  lemma {:induction false} ProperUnchanged(score: (Gram, Byte) -> real, log: real -> real, data: Gram, start: nat,
                                           i: nat)
    requires start <= i <= |data|
    requires forall ctx: Gram :: |ctx| == start ==> Z(score, ctx) == 1.0
    requires forall ctx: Gram, b: Byte :: |ctx| == start ==> score(ctx, b) > 0.0
    ensures FairLoss(score, log, data, start, i) == RawLoss(score, log, data, start, i)
  {
    if i > start {
      ProperUnchanged(score, log, data, start, i - 1);
      var ctx := Context(data, start, i - 1);
      var p := score(ctx, data[i - 1]);
      assert p / Z(score, ctx) == p;
    }
  }

  // ----- what is scored in what context -----

  /** The bytes before position i that are scored against are those of the gram ending at i. */
  lemma ContextEndsAt(data: Gram, start: nat, i: nat)
    requires start <= i < |data|
    ensures |Context(data, start, i)| == start && EndsAt(data, Context(data, start, i) + [data[i]], i)
  {
    assert data[i - start..i + 1] == data[i - start..i] + [data[i]];
  }

  /** Losses over positions inside a text do not depend on what follows. */
  lemma {:induction false} LossesInside(score: (Gram, Byte) -> real, log: real -> real, data: Gram, more: Gram,
                                        start: nat, i: nat)
    requires start <= i <= |data|
    ensures RawLoss(score, log, data + more, start, i) == RawLoss(score, log, data, start, i)
    ensures FairLoss(score, log, data + more, start, i) == FairLoss(score, log, data, start, i)
  {
    if i > start {
      LossesInside(score, log, data, more, start, i - 1);
      assert (data + more)[i - 1 - start..i - 1] == data[i - 1 - start..i - 1];
    }
  }

  /** One byte more costs the negative logarithm of its score after the last start bytes; the
      renormalising loss takes that score over the sum of all scores in the same context. */
  lemma OneMoreByte(score: (Gram, Byte) -> real, log: real -> real, data: Gram, start: nat, b: Byte, last: Gram)
    requires start <= |data| && last == data[|data| - start..] && forall w: Byte :: score(last, w) > 0.0
    ensures Z(score, last) > 0.0
    ensures RawLoss(score, log, data + [b], start, |data| + 1)
         == RawLoss(score, log, data, start, |data|) - log(score(last, b))
    ensures FairLoss(score, log, data + [b], start, |data| + 1)
         == FairLoss(score, log, data, start, |data|) - log(score(last, b) / Z(score, last))
  {
    LossesInside(score, log, data, [b], start, |data|);
    assert (data + [b])[|data| - start..|data|] == last;
    SumPositive(score, last, VOCAB);
    QuotientPositive(score(last, b), Z(score, last));
  }

  /** Nothing is lost on a text with no full context. */
  lemma NothingYet(score: (Gram, Byte) -> real, log: real -> real, data: Gram, start: nat)
    requires start <= |data|
    ensures RawLoss(score, log, data, start, start) == 0.0 && FairLoss(score, log, data, start, start) == 0.0
  {
  }

  /** The sum of scores that the renormalising loss divides by is that of all bytes. */
  lemma ZIsSum(score: (Gram, Byte) -> real, ctx: Gram, ps: seq<real>)
    requires |ps| == VOCAB && forall b: Byte :: ps[b] == score(ctx, b)
    ensures Z(score, ctx) == Sum(ps)
  {
    SumsUpTo(score, ctx, ps, VOCAB);
    assert ps[..VOCAB] == ps;
  }

  lemma {:induction false} SumsUpTo(score: (Gram, Byte) -> real, ctx: Gram, ps: seq<real>, w: nat)
    requires w <= |ps| == VOCAB && forall b: Byte :: ps[b] == score(ctx, b)
    ensures SumUpTo(score, ctx, w) == Sum(ps[..w])
  {
    if w > 0 {
      SumsUpTo(score, ctx, ps, w - 1);
      assert ps[..w][..w - 1] == ps[..w - 1];
    }
  }

  /** Where no score is positive the renormalising loss falls back to a tiny probability. */
  lemma FallsBack(score: (Gram, Byte) -> real, ctx: Gram, b: Byte, z: real)
    requires z <= 0.0 || score(ctx, b) <= 0.0
    ensures Renormalised(score, ctx, b, z) == 0.000000000001
  {
    if z > 0.0 {
      assert score(ctx, b) / z <= 0.0;
    }
  }
}
