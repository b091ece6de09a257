/** The Kneser-Ney byte models: the tables they are trained into, stated by what they mean for
    the training data, and the interpolated probability functions over those tables. */
module KneserNey {
  import opened Interpolation

  type Byte = x: int | 0 <= x < 256
  type Gram = seq<Byte>

  const VOCAB := 256

  function Clamp(d: real): real {
    var low := if d < 0.99 then d else 0.99;
    if low > 0.01 then low else 0.01
  }

  // ----- occurrences in the training data -----

  predicate EndsAt(data: Gram, g: Gram, i: int) {
    |g| - 1 <= i < |data| && data[i - |g| + 1..i + 1] == g
  }

  /** Occurrences of g that end before position n. */
  function Occ(data: Gram, g: Gram, n: nat): nat
    requires |g| > 0
  {
    if n == 0 then 0 else Occ(data, g, n - 1) + if EndsAt(data, g, n - 1) then 1 else 0
  }

  function Count(data: Gram, g: Gram): nat
    requires |g| > 0
  {
    Occ(data, g, |data|)
  }

  predicate Seen(data: Gram, g: Gram)
    requires |g| > 0
  {
    Count(data, g) > 0
  }

  /** The bytes seen right before g. */
  function Lefts(data: Gram, g: Gram): set<Byte> {
    set b: Byte | 0 <= b < VOCAB && Seen(data, [b] + g)
  }

  // ----- the trained tables -----

  type Row = map<Byte, nat>

  /** Entry k of each table is for k-grams; entry 0 is unused. */
  datatype Tables = Tables(
    counts: seq<map<Gram, Row>>,
    totals: seq<map<Gram, nat>>,
    right: seq<map<Gram, nat>>,
    left: seq<map<Gram, set<Byte>>>,
    leftByte: map<Byte, nat>,
    dotDot: nat)

  function RowOf(table: map<Gram, Row>, ctx: Gram): Row {
    if ctx in table then table[ctx] else map[]
  }

  function Get<K>(table: map<K, nat>, key: K): nat {
    if key in table then table[key] else 0
  }

  function LeftsOf(table: map<Gram, set<Byte>>, g: Gram): set<Byte> {
    if g in table then table[g] else {}
  }

  /** A row as the 256 counts of its bytes. */
  function RowSeq(row: Row): (cs: seq<nat>)
    ensures |cs| == VOCAB && forall b: Byte :: cs[b] == Get(row, b)
  {
    seq(VOCAB, b requires 0 <= b < VOCAB => Get(row, b))
  }

  ghost predicate Shaped(t: Tables, n: nat) {
    |t.counts| == |t.totals| == |t.right| == |t.left| == n + 1
  }

  /** counts[k] holds exactly the k-grams of the data with their multiplicities. */
  ghost predicate CountsMean(table: map<Gram, Row>, data: Gram, k: nat, upTo: nat)
    requires k >= 1
  {
    && (forall ctx: Gram, b: Byte {:trigger Occ(data, ctx + [b], upTo)} :: |ctx| == k - 1 ==>
          Get(RowOf(table, ctx), b) == Occ(data, ctx + [b], upTo))
    && (forall ctx :: ctx in table ==> |ctx| == k - 1)
    && (forall ctx, b :: ctx in table && b in table[ctx] ==> table[ctx][b] > 0)
  }

  ghost predicate LeftsMean(table: map<Gram, set<Byte>>, data: Gram, k: nat, upTo: nat)
    requires k >= 1
  {
    && (forall g: Gram, b: Byte {:trigger Occ(data, [b] + g, upTo)} :: |g| == k ==>
          (b in LeftsOf(table, g) <==> Occ(data, [b] + g, upTo) > 0))
    && (forall g :: g in table ==> |g| == k)
  }

  ghost predicate TotalsMean(totals: map<Gram, nat>, table: map<Gram, Row>) {
    forall ctx {:trigger RowSeq(RowOf(table, ctx))} :: Get(totals, ctx) == Total(RowSeq(RowOf(table, ctx)))
  }

  ghost predicate RightMean(right: map<Gram, nat>, table: map<Gram, Row>) {
    forall ctx :: Get(right, ctx) == |RowOf(table, ctx)|
  }

  ghost predicate TrainedOn(t: Tables, data: Gram, n: nat) {
    && Shaped(t, n)
    && (forall k :: 1 <= k <= n ==>
          && CountsMean(t.counts[k], data, k, |data|)
          && TotalsMean(t.totals[k], t.counts[k])
          && RightMean(t.right[k], t.counts[k]))
    && (forall k :: 2 <= k <= n ==> LeftsMean(t.left[k], data, k, |data|))
    && (n >= 2 ==>
          && (forall w: Byte :: Get(t.leftByte, w) == |Lefts(data, [w])|)
          && t.dotDot == Total(RowSeq(t.leftByte)))
  }

  // ----- the model classes -----

  /** What the classes override: the discount of the continuation orders by the context's total,
      the discount of the highest order by count and total, and the mass the highest order
      hands to the lower one (before division by the total). */
  datatype Model = Model(n: nat, lower: nat -> real, top: (nat, nat) -> real, backoff: (Row, nat, nat) -> real)

  /** Multipliers by context total; the sparse test comes first. */
  datatype Tiers = Tiers(sparseMax: int, denseMin: int, sparse: real, mid: real, dense: real) {
    function At(total: nat): real {
      if total <= sparseMax then sparse else if total >= denseMin then dense else mid
    }
  }

  /** The tiers built into the first context-conditional class. */
  const BUILT_IN_TIERS := Tiers(2, 11, 1.3, 1.0, 0.6)

  /** Modified discounts: one, two, three and more; none for an unseen continuation. */
  function ByCount(d: real, c: nat): real {
    if c == 0 then 0.0
    else if c == 1 then Clamp(0.7 * d)
    else if c == 2 then d
    else Clamp(1.3 * d)
  }

  /** A modified discount scaled by a context multiplier and clamped again. */
  function Scaled(d: real, c: nat, mult: real): real {
    Clamp(ByCount(d, c) * mult)
  }

  function ExactMass(top: (nat, nat) -> real, row: Row, total: nat): real {
    Flat(top(1, total), ClassSize(row, 1))
    + Flat(top(2, total), ClassSize(row, 2))
    + Flat(top(3, total), ClassSize(row, 3))
  }

  function KneserNeyModel(n: nat, alpha: real): Model {
    var d := Clamp(alpha);
    Model(n, _ => d, (c: nat, total: nat) => d, (row, right, total) => Flat(d, right))
  }

  function ContextConditional(n: nat, alpha: real, mult: Tiers): Model {
    var disc := (total: nat) => Clamp(mult.At(total) * Clamp(alpha));
    Model(n, disc, (c: nat, total: nat) => disc(total), (row, right, total) => Flat(disc(total), right))
  }

  function ModifiedKneserNey(n: nat, alpha: real): Model {
    var d := Clamp(alpha);
    Model(n, _ => d, (c: nat, total: nat) => ByCount(d, c), (row, right, total) => Flat(d, right))
  }

  function KnCtxMod(n: nat, alpha: real, mult: Tiers): Model {
    var d := Clamp(alpha);
    Model(n, (total: nat) => Clamp(d * mult.At(total)),
          (c: nat, total: nat) => Scaled(d, c, mult.At(total)),
          (row, right, total) => Flat(Scaled(d, 2, mult.At(total)), right))
  }

  function ModifiedKneserNeyExact(n: nat, alpha: real): Model {
    var d := Clamp(alpha);
    var top := (c: nat, total: nat) => ByCount(d, c);
    Model(n, _ => d, top, (row, right, total) => ExactMass(top, row, total))
  }

  function KnCtxModExact(n: nat, alpha: real, mult: Tiers, gammaScale: real): Model {
    var d := Clamp(alpha);
    var top := (c: nat, total: nat) => if c == 0 then 0.0 else Scaled(d, c, mult.At(total));
    Model(n, (total: nat) => Clamp(d * mult.At(total)), top, (row, right, total) => gammaScale * ExactMass(top, row,
          total))
  }

  /** Continuations whose count is in class c. */
  function ClassSize(row: Row, c: nat): nat {
    |set b | b in row && Class(row[b]) == c|
  }

  /** The left-extension counts of the continuations of ctx. */
  function LeftSeq(t: Tables, k: nat, ctx: Gram): (cs: seq<nat>)
    requires k < |t.counts| && k < |t.left|
    ensures |cs| == VOCAB
  {
    seq(VOCAB, b requires 0 <= b < VOCAB =>
      if b in RowOf(t.counts[k], ctx) then |LeftsOf(t.left[k], ctx + [b])| else 0)
  }

  const EPS := 0.000000001

  function Unigram(t: Tables, nxt: Byte): real {
    var den := if t.dotDot == 0 then 1 else t.dotDot;
    (Get(t.leftByte, nxt) as real + EPS) / (den as real + 256.0 * EPS)
  }

  /** One continuation order: discount the left-extension counts and mix in the lower order,
      or fall through to it when the context has no left extension. */
  function Blend(m: Model, t: Tables, k: nat, ctx: Gram, nxt: Byte, lower: real): real
    requires Shaped(t, m.n) && k <= m.n
  {
    var num := |LeftsOf(t.left[k], ctx + [nxt])|;
    var den := Total(LeftSeq(t, k, ctx));
    if den == 0 then lower
    else
      var d := m.lower(Get(t.totals[k], ctx));
      Interpolate(num, d, den, Flat(d, Get(t.right[k], ctx)), lower)
  }

  function Continuation(m: Model, t: Tables, k: nat, ctx: Gram, nxt: Byte): real
    requires Shaped(t, m.n) && 1 <= k <= m.n && |ctx| == k - 1
    decreases k
  {
    if k == 1 then Unigram(t, nxt)
    else Blend(m, t, k, ctx, nxt, Continuation(m, t, k - 1, ctx[1..], nxt))
  }

  /** The highest order of a context seen in training: raw counts, discounted. */
  function TopBlend(m: Model, t: Tables, ctx: Gram, nxt: Byte, lower: real): real
    requires Shaped(t, m.n) && Get(t.totals[m.n], ctx) > 0
  {
    var total := Get(t.totals[m.n], ctx);
    var row := RowOf(t.counts[m.n], ctx);
    var c := Get(row, nxt);
    Interpolate(c, m.top(c, total), total, m.backoff(row, Get(t.right[m.n], ctx), total), lower)
  }

  function HighestProb(m: Model, t: Tables, ctx: Gram, nxt: Byte): real
    requires Shaped(t, m.n) && 1 <= m.n && |ctx| == m.n - 1
  {
    var total := Get(t.totals[m.n], ctx);
    if m.n == 1 then
      (Get(RowOf(t.counts[1], ctx), nxt) as real + 0.001) / ((if total == 0 then 1 else total) as real + 256.0 * 0.001)
    else
      var lower := Continuation(m, t, m.n - 1, ctx[1..], nxt);
      if total == 0 then lower else TopBlend(m, t, ctx, nxt, lower)
  }

  // ----- total mass -----

  ghost predicate AreLower(ps: seq<real>, m: Model, t: Tables, k: nat, ctx: Gram)
    requires Shaped(t, m.n) && 1 <= k <= m.n && |ctx| == k - 1
  {
    |ps| == VOCAB && forall b: Byte {:trigger Continuation(m, t, k, ctx, b)} :: ps[b] == Continuation(m, t, k, ctx, b)
  }

  ghost predicate AreTop(ps: seq<real>, m: Model, t: Tables, ctx: Gram)
    requires Shaped(t, m.n) && 1 <= m.n && |ctx| == m.n - 1
  {
    |ps| == VOCAB && forall b: Byte {:trigger HighestProb(m, t, ctx, b)} :: ps[b] == HighestProb(m, t, ctx, b)
  }

  /** The 256 probabilities an order-k context gives. They are characterised rather than listed,
      which keeps Sum from being unfolded into the probability functions. */
  ghost function LowerProbs(m: Model, t: Tables, k: nat, ctx: Gram): (ps: seq<real>)
    requires Shaped(t, m.n) && 1 <= k <= m.n && |ctx| == k - 1
    ensures AreLower(ps, m, t, k, ctx)
  {
    assert AreLower(seq(VOCAB, b requires 0 <= b < VOCAB => Continuation(m, t, k, ctx, b)), m, t, k, ctx);
    var ps :| AreLower(ps, m, t, k, ctx);
    ps
  }

  ghost function TopProbs(m: Model, t: Tables, ctx: Gram): (ps: seq<real>)
    requires Shaped(t, m.n) && 1 <= m.n && |ctx| == m.n - 1
    ensures AreTop(ps, m, t, ctx)
  {
    assert AreTop(seq(VOCAB, b requires 0 <= b < VOCAB => HighestProb(m, t, ctx, b)), m, t, ctx);
    var ps :| AreTop(ps, m, t, ctx);
    ps
  }

  /** The probability an order-k context gives to all bytes together. */
  ghost function LowerMass(m: Model, t: Tables, k: nat, ctx: Gram): real
    requires Shaped(t, m.n) && 1 <= k <= m.n && |ctx| == k - 1
  {
    Sum(LowerProbs(m, t, k, ctx))
  }

  ghost function TopMass(m: Model, t: Tables, ctx: Gram): real
    requires Shaped(t, m.n) && 1 <= m.n && |ctx| == m.n - 1
  {
    Sum(TopProbs(m, t, ctx))
  }
}
