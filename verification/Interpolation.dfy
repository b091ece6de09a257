/** Discounted counts mixed with a lower-order distribution, and what such a mixture sums to. */
module Interpolation {

  function Sum(xs: seq<real>): real {
    if xs == [] then 0.0 else Sum(xs[..|xs| - 1]) + xs[|xs| - 1]
  }

  function Total(xs: seq<nat>): nat {
    if xs == [] then 0 else Total(xs[..|xs| - 1]) + xs[|xs| - 1]
  }

  function Positive(x: real): real {
    if x > 0.0 then x else 0.0
  }

  /** The probability of an entry with count c: what the discount leaves of it, and its part of
      the mass handed to the lower order, where its probability is p. */
  function Interpolate(c: nat, discount: real, total: nat, backoff: real, p: real): real
    requires total > 0
  {
    Positive(c as real - discount) / total as real + backoff / total as real * p
  }

  /** Count class of an entry: absent, one, two, or three and more. */
  function Class(c: nat): nat {
    if c <= 2 then c else 3
  }

  function ClassCount(cs: seq<nat>, c: nat): nat {
    if cs == [] then 0 else ClassCount(cs[..|cs| - 1], c) + if Class(cs[|cs| - 1]) == c then 1 else 0
  }

  /** A discount below one per count class, and none that adds to an absent entry. */
  ghost predicate Proper(disc: nat -> real) {
    && 0.0 < disc(1) < 1.0 && 0.0 < disc(2) < 1.0 && 0.0 < disc(3) < 1.0
    && 0.0 <= disc(0)
    && forall c :: c > 3 ==> disc(c) == disc(3)
  }

  /** d times n, by repeated addition; FlatIsProduct says it is the product. */
  function Flat(d: real, n: nat): real {
    if n == 0 then 0.0 else Flat(d, n - 1) + d
  }

  /** Mass the discounts take from n1 ones, n2 twos and n3 larger counts. */
  function Removed(disc: nat -> real, n1: nat, n2: nat, n3: nat): real {
    Flat(disc(1), n1) + Flat(disc(2), n2) + Flat(disc(3), n3)
  }

  function KeptSum(disc: nat -> real, cs: seq<nat>): real {
    if cs == [] then 0.0
    else KeptSum(disc, cs[..|cs| - 1]) + Positive(cs[|cs| - 1] as real - disc(cs[|cs| - 1]))
  }

  ghost predicate Interpolates(ps: seq<real>, disc: nat -> real, cs: seq<nat>, total: nat, backoff: real,
                               qs: seq<real>) {
    && total > 0 && |ps| == |cs| == |qs|
    && forall b :: 0 <= b < |ps| ==> ps[b] == Interpolate(cs[b], disc(cs[b]), total, backoff, qs[b])
  }

  // ----- arithmetic, one product or quotient at a time -----

  lemma AddOver(a: real, b: real, d: real)
    requires d != 0.0
    ensures a / d + b / d == (a + b) / d
  {
  }

  lemma Distribute(x: real, a: real, b: real)
    ensures x * (a + b) == x * a + x * b
  {
  }

  lemma ScaleRatio(x: real, y: real, d: real)
    requires d != 0.0
    ensures x / d * y == x * y / d
  {
  }

  /** One more entry in a sum of interpolated entries. */
  lemma SumStep(x: real, q: real, kept: real, p: real, den: real, lam: real)
    requires den > 0.0
    ensures x / den + lam * q + (kept / den + lam * p) == (x + kept) / den + lam * (q + p)
  {
    AddOver(x, kept, den);
    Distribute(lam, q, p);
  }

  lemma OverTotal(kept: real, total: real, removed: real, backoff: real, lower: real)
    requires total > 0.0 && kept == total - removed
    ensures kept / total + backoff / total * lower == 1.0 + (backoff * lower - removed) / total
  {
    ScaleRatio(backoff, lower, total);
    AddOver(kept, removed, total);
    AddOver(backoff * lower - removed, removed, total);
  }

  // Sums are passed as plain values below, so that products and quotients are of values only.

  lemma {:induction false} FlatIsProduct(d: real, n: nat)
    ensures Flat(d, n) == d * n as real
  {
    if n > 0 {
      FlatIsProduct(d, n - 1);
      Distribute(d, (n - 1) as real, 1.0);
    }
  }

  lemma {:induction false} FlatAdd(d: real, a: nat, b: nat)
    ensures Flat(d, a + b) == Flat(d, a) + Flat(d, b)
  {
    if b > 0 {
      FlatAdd(d, a, b - 1);
    }
  }

  lemma {:induction false} FlatMinus(d: real, e: real, n: nat)
    ensures Flat(d - e, n) == Flat(d, n) - Flat(e, n)
  {
    if n > 0 {
      FlatMinus(d, e, n - 1);
    }
  }

  lemma {:induction false} FlatSign(d: real, n: nat)
    requires d > 0.0
    ensures Flat(d, n) >= 0.0 && (Flat(d, n) > 0.0 <==> n > 0)
  {
    if n > 0 {
      FlatSign(d, n - 1);
    }
  }

  lemma RemovedStep(disc: nat -> real, n1: nat, n2: nat, n3: nat, c: nat)
    requires Proper(disc)
    ensures c as real - Positive(c as real - disc(c))
         == Removed(disc, n1 + if Class(c) == 1 then 1 else 0, n2 + if Class(c) == 2
               then 1 else 0, n3 + if Class(c) == 3 then 1 else 0)
            - Removed(disc, n1, n2, n3)
  {
  }

  // ----- sums -----

  lemma {:induction false} KeptSumIs(disc: nat -> real, cs: seq<nat>) returns (n1: nat, n2: nat, n3: nat)
    requires Proper(disc)
    ensures n1 == ClassCount(cs, 1) && n2 == ClassCount(cs, 2) && n3 == ClassCount(cs, 3)
    ensures KeptSum(disc, cs) == Total(cs) as real - Removed(disc, n1, n2, n3)
  {
    if cs == [] {
      n1, n2, n3 := 0, 0, 0;
    } else {
      var c := cs[|cs| - 1];
      var m1, m2, m3 := KeptSumIs(disc, cs[..|cs| - 1]);
      RemovedStep(disc, m1, m2, m3, c);
      n1 := m1 + if Class(c) == 1 then 1 else 0;
      n2 := m2 + if Class(c) == 2 then 1 else 0;
      n3 := m3 + if Class(c) == 3 then 1 else 0;
    }
  }

  lemma {:induction false} SumInterpolated(ps: seq<real>, disc: nat -> real, cs: seq<nat>, total: nat, backoff: real,
                                           qs: seq<real>)
    returns (kept: real, lower: real)
    requires Interpolates(ps, disc, cs, total, backoff, qs)
    ensures kept == KeptSum(disc, cs) && lower == Sum(qs)
    ensures Sum(ps) == kept / total as real + backoff / total as real * lower
  {
    if ps == [] {
      kept, lower := 0.0, 0.0;
      assert 0.0 / total as real == 0.0;
    } else {
      var n := |ps| - 1;
      var k0, l0 := SumInterpolated(ps[..n], disc, cs[..n], total, backoff, qs[..n]);
      var k1 := Positive(cs[n] as real - disc(cs[n]));
      SumStep(k0, l0, k1, qs[n], total as real, backoff / total as real);
      kept, lower := k0 + k1, l0 + qs[n];
    }
  }

  /** The mass of an interpolated distribution: what is backed off, times the lower order's
      mass, must replace what the discounts removed. */
  lemma InterpolatedMass(ps: seq<real>, disc: nat -> real, cs: seq<nat>, total: nat, backoff: real, qs: seq<real>)
    returns (lower: real, n1: nat, n2: nat, n3: nat, removed: real)
    requires Interpolates(ps, disc, cs, total, backoff, qs) && total == Total(cs) && Proper(disc)
    ensures lower == Sum(qs) && n1 == ClassCount(cs, 1) && n2 == ClassCount(cs, 2) && n3 == ClassCount(cs, 3)
    ensures removed == Removed(disc, n1, n2, n3)
    ensures Sum(ps) == 1.0 + (backoff * lower - removed) / total as real
  {
    var kept;
    kept, lower := SumInterpolated(ps, disc, cs, total, backoff, qs);
    n1, n2, n3 := KeptSumIs(disc, cs);
    removed := Removed(disc, n1, n2, n3);
    OverTotal(kept, total as real, removed, backoff, lower);
  }

  lemma SelfRatio(a: real, b: real)
    requires a == b && b > 0.0
    ensures a / b == 1.0
  {
  }

  /** Whether a level keeps mass 1: a level that backs off at least what it removes, over a lower
      order of mass at least 1, has mass at least 1, and exactly 1 only if nothing is gained. */
  lemma LevelVerdict(d: real, right: nat, ext: nat, total: nat, lower: real, backoff: real, removed: real, mass: real)
    requires d > 0.0 && total > 0 && right >= ext >= 1 && lower >= 1.0
    requires backoff == Flat(d, right) && removed == Flat(d, ext)
    requires mass == 1.0 + (backoff * lower - removed) / total as real
    ensures mass >= 1.0
    ensures mass == 1.0 <==> lower == 1.0 && right == ext
  {
    FlatIsProduct(d, right);
    FlatIsProduct(d, ext);
    var x := right as real * lower;
    GrowsBy(right as real, lower, x);
    Gain(d, right as real, lower, x, ext as real, backoff, removed);
    SignOver(d, x - ext as real, total as real, backoff * lower - removed);
  }

  lemma GrowsBy(r: real, lower: real, x: real)
    requires r > 0.0 && lower >= 1.0 && x == r * lower
    ensures x >= r && (x == r <==> lower == 1.0)
  {
    Distribute(r, 1.0, lower - 1.0);
    assert r * (lower - 1.0) >= 0.0;
    if lower > 1.0 {
      assert r * (lower - 1.0) > 0.0;
    }
  }

  lemma Gain(d: real, r: real, lower: real, x: real, ext: real, backoff: real, removed: real)
    requires x == r * lower && backoff == d * r && removed == d * ext
    ensures backoff * lower - removed == d * (x - ext)
  {
    assert d * r * lower == d * (r * lower);
    Distribute(d, x, -ext);
  }

  lemma FactorOut(d: real, gain: real, total: real, product: real)
    requires total > 0.0 && product == d * gain
    ensures product / total == d / total * gain
  {
    ScaleRatio(d, gain, total);
  }

  /** The mass of one discount as a product. */
  lemma FactoredMass(d: real, right: nat, ext: nat, total: nat, lower: real, backoff: real, removed: real, mass: real)
    returns (gain: real)
    requires total > 0 && backoff == Flat(d, right) && removed == Flat(d, ext)
    requires mass == 1.0 + (backoff * lower - removed) / total as real
    ensures gain == right as real * lower - ext as real
    ensures mass == 1.0 + d / total as real * gain
  {
    FlatIsProduct(d, right);
    FlatIsProduct(d, ext);
    var x := right as real * lower;
    gain := x - ext as real;
    Gain(d, right as real, lower, x, ext as real, backoff, removed);
    FactorOut(d, gain, total as real, backoff * lower - removed);
  }

  lemma SignOver(d: real, gain: real, total: real, product: real)
    requires d > 0.0 && total > 0.0 && gain >= 0.0 && product == d * gain
    ensures product / total >= 0.0
    ensures product / total == 0.0 <==> gain == 0.0
  {
    if gain > 0.0 {
      assert product > 0.0;
      assert product / total > 0.0;
    }
  }

  /** One discount for all classes, backed off right times and removed ext times. */
  lemma FlatMass(ps: seq<real>, disc: nat -> real, d: real, cs: seq<nat>, right: nat, ext: nat, qs: seq<real>)
    returns (mass: real, lower: real, total: nat, backoff: real, removed: real)
    requires Interpolates(ps, disc, cs, Total(cs), Flat(d, right), qs)
    requires (forall c :: disc(c) == d) && 0.0 < d < 1.0
    requires ext == ClassCount(cs, 1) + ClassCount(cs, 2) + ClassCount(cs, 3)
    ensures mass == Sum(ps) && lower == Sum(qs) && total == Total(cs)
    ensures backoff == Flat(d, right) && removed == Flat(d, ext)
    ensures mass == 1.0 + (backoff * lower - removed) / total as real
  {
    mass, total, backoff := Sum(ps), Total(cs), Flat(d, right);
    var n1, n2, n3;
    lower, n1, n2, n3, removed := InterpolatedMass(ps, disc, cs, total, backoff, qs);
    RemovedFlat(disc, d, n1, n2, n3, ext);
  }

  /** One discount for all classes, backed off once per continuation: the whole level's verdict. */
  lemma FlatVerdict(ps: seq<real>, disc: nat -> real, d: real, cs: seq<nat>, right: nat, ext: nat, qs: seq<real>)
    requires Interpolates(ps, disc, cs, Total(cs), Flat(d, right), qs)
    requires (forall c :: disc(c) == d) && 0.0 < d < 1.0
    requires ext == ClassCount(cs, 1) + ClassCount(cs, 2) + ClassCount(cs, 3) && right >= ext >= 1
    requires Sum(qs) >= 1.0
    ensures Sum(ps) >= 1.0 && (Sum(ps) == 1.0 <==> Sum(qs) == 1.0 && right == ext)
  {
    var mass, lower, total, backoff, removed := FlatMass(ps, disc, d, cs, right, ext, qs);
    LevelVerdict(d, right, ext, total, lower, backoff, removed, mass);
  }

  /** A single discount removes as much for every class. */
  lemma RemovedFlat(disc: nat -> real, d: real, n1: nat, n2: nat, n3: nat, n: nat)
    requires disc(1) == d && disc(2) == d && disc(3) == d && n == n1 + n2 + n3
    ensures Removed(disc, n1, n2, n3) == Flat(d, n)
  {
    FlatAdd(d, n1, n2);
    FlatAdd(d, n1 + n2, n3);
  }

  /** A mixture whose backed-off mass is its removed mass times a scale has mass 1 exactly when
      the scale undoes the lower order's excess. */
  lemma ScaledVerdict(scale: real, total: nat, lower: real, backoff: real, exact: real, removed: real, mass: real)
    requires total > 0 && exact == removed > 0.0 && backoff == scale * exact
    requires mass == 1.0 + (backoff * lower - removed) / total as real
    ensures mass == 1.0 <==> scale * lower == 1.0
  {
    var y := scale * lower;
    assert backoff * lower == removed * y by {
      assert scale * exact * lower == exact * (scale * lower);
      assert exact * y == removed * y;
    }
    Distribute(removed, y, -1.0);
    var gain := backoff * lower - removed;
    assert gain == removed * (y - 1.0);
    ZeroOver(gain, total as real);
    ZeroProduct(removed, y - 1.0, gain);
  }

  lemma ZeroOver(x: real, d: real)
    requires d > 0.0
    ensures x / d == 0.0 <==> x == 0.0
  {
  }

  lemma ZeroProduct(x: real, y: real, p: real)
    requires x > 0.0 && p == x * y
    ensures p == 0.0 <==> y == 0.0
  {
  }

  lemma RemovedPositive(disc: nat -> real, n1: nat, n2: nat, n3: nat)
    requires Proper(disc) && n1 + n2 + n3 > 0
    ensures Removed(disc, n1, n2, n3) > 0.0
  {
    FlatSign(disc(1), n1);
    FlatSign(disc(2), n2);
    FlatSign(disc(3), n3);
  }

  /** One discount for all classes backed off instead of the discounts themselves. */
  lemma FlatLessRemoved(disc: nat -> real, n1: nat, n2: nat, n3: nat, n: nat)
    requires n == n1 + n2 + n3
    ensures Flat(disc(2), n) - Removed(disc, n1, n2, n3)
         == Flat(disc(2) - disc(1), n1) - Flat(disc(3) - disc(2), n3)
  {
    FlatAdd(disc(2), n1, n2);
    FlatAdd(disc(2), n1 + n2, n3);
    FlatMinus(disc(2), disc(1), n1);
    FlatMinus(disc(3), disc(2), n3);
  }

  /** Class 2's discount backed off once per positive count, over a proper lower order. */
  lemma MiddleMass(ps: seq<real>, disc: nat -> real, cs: seq<nat>, total: nat, backoff: real, qs: seq<real>, n: nat)
    returns (n1: nat, n3: nat, excess: real)
    requires Interpolates(ps, disc, cs, total, backoff, qs) && total == Total(cs) && Proper(disc)
    requires n == ClassCount(cs, 1) + ClassCount(cs, 2) + ClassCount(cs, 3) && backoff == Flat(disc(2), n)
    requires Sum(qs) == 1.0
    ensures n1 == ClassCount(cs, 1) && n3 == ClassCount(cs, 3)
    ensures excess == Flat(disc(2) - disc(1), n1) - Flat(disc(3) - disc(2), n3)
    ensures Sum(ps) == 1.0 + excess / total as real
  {
    var lower, n2, removed;
    lower, n1, n2, n3, removed := InterpolatedMass(ps, disc, cs, total, backoff, qs);
    FlatLessRemoved(disc, n1, n2, n3, n);
    excess := backoff - removed;
    TimesOne(backoff, lower);
  }

  lemma TimesOne(x: real, one: real)
    requires one == 1.0
    ensures x * one == x
  {
  }

  lemma InterpolatePositive(c: nat, discount: real, total: nat, backoff: real, p: real)
    requires total > 0 && backoff > 0.0 && p > 0.0
    ensures Interpolate(c, discount, total, backoff, p) > 0.0
  {
    var kept, share := Positive(c as real - discount), backoff / total as real;
    assert kept / total as real >= 0.0;
    assert share > 0.0;
    assert share * p > 0.0;
  }

  /** Counts with a constant added, over a common denominator. */
  lemma {:induction false} SumSmoothed(ps: seq<real>, cs: seq<nat>, add: real, den: real) returns (sum: real)
    requires |ps| == |cs| && den > 0.0 && forall b :: 0 <= b < |ps| ==> ps[b] == (cs[b] as real + add) / den
    ensures sum == Total(cs) as real + |cs| as real * add && Sum(ps) == sum / den
  {
    if ps == [] {
      sum := 0.0;
    } else {
      var n := |ps| - 1;
      var front := SumSmoothed(ps[..n], cs[..n], add, den);
      AddOver(front, cs[n] as real + add, den);
      Distribute(add, n as real, 1.0);
      sum := front + (cs[n] as real + add);
    }
  }
}
