/** How much probability mass the Kneser-Ney models give out in a context: exact formulas, and
    exactly when the mass is 1. */
module KneserNeyMass {
  import opened Interpolation
  import opened KneserNey

  // ----- what the tables say about one context -----

  lemma {:induction false} OccPositive(data: Gram, g: Gram, n: nat)
    requires |g| > 0
    ensures Occ(data, g, n) > 0 <==> exists i :: 0 <= i < n && EndsAt(data, g, i)
  {
    if n > 0 {
      OccPositive(data, g, n - 1);
    }
  }

  /** The continuations of ctx in the data. */
  function Followers(data: Gram, ctx: Gram): set<Byte> {
    set b: Byte | 0 <= b < VOCAB && Seen(data, ctx + [b])
  }

  /** Distinct bytes seen to the left of ctx and each continuation. */
  function LeftCounts(data: Gram, ctx: Gram): (cs: seq<nat>)
    ensures |cs| == VOCAB && forall b: Byte :: cs[b] == |Lefts(data, ctx + [b])|
  {
    seq(VOCAB, b requires 0 <= b < VOCAB => |Lefts(data, ctx + [b])|)
  }

  /** Bytes with a positive entry in a list of counts. */
  function Support(cs: seq<nat>): set<Byte>
    requires |cs| == VOCAB
  {
    set b: Byte | 0 <= b < VOCAB && cs[b] > 0
  }

  /** The continuations of ctx that have a left extension. */
  function Extended(data: Gram, ctx: Gram): set<Byte> {
    Support(LeftCounts(data, ctx))
  }

  lemma DropLeft(data: Gram, g: Gram, b: Byte, i: int)
    requires EndsAt(data, [b] + g, i)
    ensures |g| <= i && EndsAt(data, g, i)
  {
    assert data[i - |g| + 1..i + 1] == data[i - |g|..i + 1][1..];
  }

  lemma AddLeft(data: Gram, g: Gram, i: int)
    requires |g| <= i && EndsAt(data, g, i)
    ensures EndsAt(data, [data[i - |g|]] + g, i)
  {
    assert data[i - |g|..i + 1] == [data[i - |g|]] + data[i - |g| + 1..i + 1];
  }

  /** A gram has a left extension exactly when it occurs somewhere else than at the start. */
  lemma LeftIsSeen(data: Gram, g: Gram)
    requires |g| > 0
    ensures Lefts(data, g) != {} <==> exists i :: |g| <= i && EndsAt(data, g, i)
    ensures Lefts(data, g) != {} ==> Seen(data, g)
  {
    OccPositive(data, g, |data|);
    if Lefts(data, g) != {} {
      var b :| b in Lefts(data, g);
      OccPositive(data, [b] + g, |data|);
      var i :| 0 <= i < |data| && EndsAt(data, [b] + g, i);
      DropLeft(data, g, b, i);
    }
    if i :| |g| <= i && EndsAt(data, g, i) {
      AddLeft(data, g, i);
      OccPositive(data, [data[i - |g|]] + g, |data|);
      assert data[i - |g|] in Lefts(data, g);
    }
  }

  lemma TableLefts(t: Tables, data: Gram, n: nat, k: nat, g: Gram)
    requires TrainedOn(t, data, n) && 2 <= k <= n && |g| == k
    ensures LeftsOf(t.left[k], g) == Lefts(data, g)
  {
    assert LeftsMean(t.left[k], data, k, |data|);
  }

  lemma TableRow(t: Tables, data: Gram, n: nat, k: nat, ctx: Gram, b: Byte)
    requires TrainedOn(t, data, n) && 1 <= k <= n && |ctx| == k - 1
    ensures b in RowOf(t.counts[k], ctx) <==> Seen(data, ctx + [b])
    ensures Get(RowOf(t.counts[k], ctx), b) == Count(data, ctx + [b])
  {
    assert CountsMean(t.counts[k], data, k, |data|);
  }

  lemma TableLeftSeq(t: Tables, data: Gram, n: nat, k: nat, ctx: Gram)
    requires TrainedOn(t, data, n) && 2 <= k <= n && |ctx| == k - 1
    ensures LeftSeq(t, k, ctx) == LeftCounts(data, ctx)
  {
    forall b: Byte
      ensures LeftSeq(t, k, ctx)[b] == |Lefts(data, ctx + [b])|
    {
      TableRow(t, data, n, k, ctx, b);
      TableLefts(t, data, n, k, ctx + [b]);
      LeftIsSeen(data, ctx + [b]);
    }
  }

  lemma TableRight(t: Tables, data: Gram, n: nat, k: nat, ctx: Gram)
    requires TrainedOn(t, data, n) && 1 <= k <= n && |ctx| == k - 1
    ensures RowOf(t.counts[k], ctx).Keys == Followers(data, ctx)
    ensures Get(t.right[k], ctx) == |Followers(data, ctx)|
  {
    forall b: Byte
      ensures b in RowOf(t.counts[k], ctx).Keys <==> b in Followers(data, ctx)
    {
      TableRow(t, data, n, k, ctx, b);
    }
  }

  // ----- counting bytes -----

  /** A count per byte, class by class, is the size of the set of bytes in the class. */
  lemma {:induction false} ClassBelow(cs: seq<nat>, c: nat, n: nat, s: set<Byte>)
    requires n <= |cs| <= VOCAB && s == set b: Byte | 0 <= b < n && Class(cs[b]) == c
    ensures ClassCount(cs[..n], c) == |s|
  {
    if n > 0 {
      var below := set b: Byte | 0 <= b < n - 1 && Class(cs[b]) == c;
      ClassBelow(cs, c, n - 1, below);
      assert cs[..n][..n - 1] == cs[..n - 1];
      assert s == if Class(cs[n - 1]) == c then below + {n - 1} else below;
    }
  }

  lemma ClassSet(cs: seq<nat>, c: nat)
    requires |cs| == VOCAB
    ensures ClassCount(cs, c) == |set b: Byte | 0 <= b < VOCAB && Class(cs[b]) == c|
  {
    ClassBelow(cs, c, VOCAB, set b: Byte | 0 <= b < VOCAB && Class(cs[b]) == c);
    assert cs[..VOCAB] == cs;
  }

  /** The three count classes make up the bytes with a positive count. */
  lemma ClassesPartition(cs: seq<nat>)
    requires |cs| == VOCAB
    ensures ClassCount(cs, 1) + ClassCount(cs, 2) + ClassCount(cs, 3) == |Support(cs)|
  {
    var s := Support(cs);
    var s1 := set b: Byte | 0 <= b < VOCAB && Class(cs[b]) == 1;
    var s2 := set b: Byte | 0 <= b < VOCAB && Class(cs[b]) == 2;
    var s3 := set b: Byte | 0 <= b < VOCAB && Class(cs[b]) == 3;
    ClassSet(cs, 1);
    ClassSet(cs, 2);
    ClassSet(cs, 3);
    assert s == s1 + s2 + s3;
    assert |s1 + s2 + s3| == |s1 + s2| + |s3| == |s1| + |s2| + |s3|;
  }

  lemma ClassOfRow(row: Row, c: nat)
    requires c >= 1 && forall b :: b in row ==> row[b] > 0
    ensures ClassSize(row, c) == ClassCount(RowSeq(row), c)
  {
    ClassSet(RowSeq(row), c);
    assert (set b: Byte | 0 <= b < VOCAB && Class(RowSeq(row)[b]) == c) == set b | b in row && Class(row[b]) == c;
  }

  lemma {:induction false} TotalZero(cs: seq<nat>)
    ensures Total(cs) == 0 <==> forall b :: 0 <= b < |cs| ==> cs[b] == 0
  {
    if cs != [] {
      TotalZero(cs[..|cs| - 1]);
      assert forall b :: 0 <= b < |cs| - 1 ==> cs[b] == cs[..|cs| - 1][b];
    }
  }

  lemma {:induction false} TotalSet(cs: seq<nat>, i: nat, x: nat)
    requires i < |cs|
    ensures Total(cs[i := x]) == Total(cs) - cs[i] + x
  {
    var n := |cs| - 1;
    if i == n {
      assert cs[i := x][..n] == cs[..n];
    } else {
      TotalSet(cs[..n], i, x);
      assert cs[i := x][..n] == cs[..n][i := x];
    }
  }

  /** What every class guarantees of its discounts, whatever its parameters. */
  ghost predicate Discounting(m: Model) {
    && (forall total :: 0.0 < m.lower(total) < 1.0)
    && (forall total :: 0.0 <= m.top(0, total))
    && (forall total :: 0.0 < m.top(1, total) < 1.0 && 0.0 < m.top(2, total) < 1.0 && 0.0 < m.top(3, total) < 1.0)
    && (forall c, total :: c > 3 ==> m.top(c, total) == m.top(3, total))
  }

  // ----- one level of the continuation orders -----

  /** What the tables say about ctx, without reference to the data. */
  ghost predicate Level(t: Tables, k: nat, ctx: Gram, cs: seq<nat>, right: nat)
    requires k < |t.counts| && k < |t.left| && k < |t.right|
  {
    && |cs| == VOCAB && LeftSeq(t, k, ctx) == cs && Get(t.right[k], ctx) == right
    && forall b: Byte :: cs[b] == |LeftsOf(t.left[k], ctx + [b])|
  }

  lemma LevelBlends(m: Model, t: Tables, k: nat, ctx: Gram, cs: seq<nat>, right: nat, disc: nat -> real, d: real)
    returns (ps: seq<real>, qs: seq<real>)
    requires Shaped(t, m.n) && 2 <= k <= m.n && |ctx| == k - 1 && Level(t, k, ctx, cs, right) && Total(cs) > 0
    requires d == m.lower(Get(t.totals[k], ctx)) && forall c :: disc(c) == d
    ensures Sum(ps) == LowerMass(m, t, k, ctx) && Sum(qs) == LowerMass(m, t, k - 1, ctx[1..])
    ensures Interpolates(ps, disc, cs, Total(cs), Flat(d, right), qs)
  {
    ps, qs := LowerProbs(m, t, k, ctx), LowerProbs(m, t, k - 1, ctx[1..]);
    forall b | 0 <= b < VOCAB
      ensures ps[b] == Interpolate(cs[b], d, Total(cs), Flat(d, right), qs[b])
    {
      assert ps[b] == Continuation(m, t, k, ctx, b);
      assert qs[b] == Continuation(m, t, k - 1, ctx[1..], b);
    }
  }

  /** A context without left extensions passes the mass of its suffix on. */
  lemma LevelSkipped(m: Model, t: Tables, k: nat, ctx: Gram)
    requires Shaped(t, m.n) && 2 <= k <= m.n && |ctx| == k - 1 && Total(LeftSeq(t, k, ctx)) == 0
    ensures LowerMass(m, t, k, ctx) == LowerMass(m, t, k - 1, ctx[1..])
  {
    var ps, qs := LowerProbs(m, t, k, ctx), LowerProbs(m, t, k - 1, ctx[1..]);
    forall b: Byte
      ensures ps[b] == qs[b]
    {
      assert ps[b] == Continuation(m, t, k, ctx, b);
      assert qs[b] == Continuation(m, t, k - 1, ctx[1..], b);
    }
    assert ps == qs;
  }

  lemma TrainedLevel(t: Tables, data: Gram, n: nat, k: nat, ctx: Gram)
    requires TrainedOn(t, data, n) && 2 <= k <= n && |ctx| == k - 1
    ensures Level(t, k, ctx, LeftCounts(data, ctx), |Followers(data, ctx)|)
  {
    TableLeftSeq(t, data, n, k, ctx);
    TableRight(t, data, n, k, ctx);
    forall b: Byte
      ensures LeftCounts(data, ctx)[b] == |LeftsOf(t.left[k], ctx + [b])|
    {
      TableLefts(t, data, n, k, ctx + [b]);
    }
  }

  /** The mass of an order-k context that has left extensions, exactly, in terms of its suffix's:
      its discount is backed off once per continuation, and removed once per continuation that
      has a left extension (n1 + n2 + n3 of them; RemovedFlat turns removed into one product). */
  lemma ContinuationMass(m: Model, t: Tables, data: Gram, k: nat, ctx: Gram, disc: nat -> real, cs: seq<nat>,
                         followers: nat)
    returns (mass: real, lower: real, total: nat, backoff: real, n1: nat, n2: nat, n3: nat, removed: real)
    requires TrainedOn(t, data, m.n) && 2 <= k <= m.n && |ctx| == k - 1
    requires cs == LeftCounts(data, ctx) && Total(cs) > 0 && followers == |Followers(data, ctx)|
    requires Proper(disc) && forall c :: disc(c) == m.lower(Get(t.totals[k], ctx))
    ensures mass == LowerMass(m, t, k, ctx) && lower == LowerMass(m, t, k - 1, ctx[1..]) && total == Total(cs)
    ensures backoff == Flat(disc(1), followers)
    ensures n1 + n2 + n3 == |Support(cs)| == |Extended(data, ctx)| && removed == Removed(disc, n1, n2, n3)
    ensures mass == 1.0 + (backoff * lower - removed) / total as real
  {
    TrainedLevel(t, data, m.n, k, ctx);
    mass, lower, total, backoff, n1, n2, n3, removed := LevelMass(m, t, k, ctx, cs, followers, disc);
  }

  lemma LevelMass(m: Model, t: Tables, k: nat, ctx: Gram, cs: seq<nat>, right: nat, disc: nat -> real)
    returns (mass: real, lower: real, total: nat, backoff: real, n1: nat, n2: nat, n3: nat, removed: real)
    requires Shaped(t, m.n) && 2 <= k <= m.n && |ctx| == k - 1 && Level(t, k, ctx, cs, right) && Total(cs) > 0
    requires Proper(disc) && forall c :: disc(c) == m.lower(Get(t.totals[k], ctx))
    ensures mass == LowerMass(m, t, k, ctx) && lower == LowerMass(m, t, k - 1, ctx[1..]) && total == Total(cs)
    ensures backoff == Flat(disc(1), right)
    ensures n1 + n2 + n3 == |Support(cs)| && removed == Removed(disc, n1, n2, n3)
    ensures mass == 1.0 + (backoff * lower - removed) / total as real
  {
    var ps, qs := LevelBlends(m, t, k, ctx, cs, right, disc, disc(1));
    mass, backoff, total := Sum(ps), Flat(disc(1), right), Total(cs);
    lower, n1, n2, n3, removed := InterpolatedMass(ps, disc, cs, total, backoff, qs);
    ClassesPartition(cs);
  }

  /** The same as one formula: with D the discount, den the left extensions of all continuations,
      f continuations and e of them with a left extension, the mass is 1 + D/den (f * lower - e). */
  lemma ContinuationFormula(m: Model, t: Tables, data: Gram, k: nat, ctx: Gram)
    returns (mass: real, lower: real, d: real, den: nat, f: nat, e: nat, gain: real)
    requires Discounting(m) && TrainedOn(t, data, m.n) && 2 <= k <= m.n && |ctx| == k - 1
    requires Total(LeftCounts(data, ctx)) > 0
    ensures mass == LowerMass(m, t, k, ctx) && lower == LowerMass(m, t, k - 1, ctx[1..])
    ensures d == m.lower(Get(t.totals[k], ctx)) && den == Total(LeftCounts(data, ctx)) > 0
    ensures f == |Followers(data, ctx)| && e == |Extended(data, ctx)|
    ensures gain == f as real * lower - e as real && mass == 1.0 + d / den as real * gain
  {
    d, f, e := m.lower(Get(t.totals[k], ctx)), |Followers(data, ctx)|, |Extended(data, ctx)|;
    var disc := ConstantDiscount(d);
    var backoff, n1, n2, n3, removed;
    mass, lower, den, backoff, n1, n2, n3, removed := ContinuationMass(m, t, data, k, ctx, disc, LeftCounts(data,
          ctx), f);
    RemovedFlat(disc, d, n1, n2, n3, e);
    gain := FactoredMass(d, f, e, den, lower, backoff, removed, mass);
  }

  function ConstantDiscount(d: real): nat -> real {
    (c: nat) => d
  }

  // ----- when a continuation order is proper -----

  /** The training data starts with s and a byte, and that initial gram never occurs again. */
  ghost predicate Orphan(data: Gram, s: Gram) {
    && |s| < |data| && data[..|s|] == s
    && var initial := data[..|s| + 1];
       forall i :: EndsAt(data, initial, i) ==> i <= |s|
  }

  predicate FollowedAt(data: Gram, s: Gram, i: int) {
    |s| <= i < |data| && data[i - |s|..i] == s
  }

  /** s occurs, followed by a byte, somewhere else than at the start. */
  ghost predicate Revisited(data: Gram, s: Gram) {
    exists i :: i > |s| && FollowedAt(data, s, i)
  }

  lemma ExtendedFollows(data: Gram, ctx: Gram)
    ensures Extended(data, ctx) <= Followers(data, ctx)
  {
    forall b: Byte | b in Extended(data, ctx)
      ensures b in Followers(data, ctx)
    {
      LeftIsSeen(data, ctx + [b]);
    }
  }

  /** A continuation without left extension is the initial gram of the data, seen once. */
  lemma UnextendedIsInitial(data: Gram, ctx: Gram, b: Byte)
    requires Seen(data, ctx + [b]) && Lefts(data, ctx + [b]) == {}
    ensures Orphan(data, ctx) && data[|ctx|] == b
  {
    var g := ctx + [b];
    LeftIsSeen(data, g);
    OccPositive(data, g, |data|);
    var i :| 0 <= i < |data| && EndsAt(data, g, i);
    EndsAtStart(data, g, i);
    SplitLast(data, ctx, b);
  }

  lemma EndsAtStart(data: Gram, g: Gram, i: int)
    requires |g| > 0 && EndsAt(data, g, i) && i < |g|
    ensures |g| <= |data| && data[..|g|] == g
  {
    assert i == |g| - 1;
  }

  lemma SplitLast(data: Gram, ctx: Gram, b: Byte)
    requires |ctx| < |data| && data[..|ctx| + 1] == ctx + [b]
    ensures data[..|ctx|] == ctx && data[|ctx|] == b
  {
    assert data[..|ctx|] == data[..|ctx| + 1][..|ctx|];
    assert data[|ctx|] == data[..|ctx| + 1][|ctx|];
  }

  lemma InitialIsUnextended(data: Gram, ctx: Gram)
    requires Orphan(data, ctx)
    ensures Lefts(data, ctx + [data[|ctx|]]) == {}
  {
    var g := ctx + [data[|ctx|]];
    assert data[..|ctx| + 1] == g;
    LeftIsSeen(data, g);
  }

  lemma InitialGramSeen(data: Gram, ctx: Gram)
    requires Orphan(data, ctx)
    ensures Seen(data, ctx + [data[|ctx|]])
  {
    var g := ctx + [data[|ctx|]];
    assert data[..|ctx| + 1] == g;
    assert EndsAt(data, g, |ctx|);
    OccPositive(data, g, |data|);
  }

  lemma AllExtendedIff(data: Gram, ctx: Gram)
    ensures |Extended(data, ctx)| <= |Followers(data, ctx)|
    ensures |Followers(data, ctx)| == |Extended(data, ctx)| <==> !Orphan(data, ctx)
  {
    ExtendedFollows(data, ctx);
    var e, f := Extended(data, ctx), Followers(data, ctx);
    assert f == e + (f - e) && |f| == |e| + |f - e|;
    if Orphan(data, ctx) {
      InitialGramSeen(data, ctx);
      InitialIsUnextended(data, ctx);
      assert data[|ctx|] in f - e;
    } else if f - e != {} {
      var b :| b in f - e;
      UnextendedIsInitial(data, ctx, b);
    }
  }

  lemma GramFollows(data: Gram, ctx: Gram, b: Byte, i: int)
    requires EndsAt(data, ctx + [b], i)
    ensures FollowedAt(data, ctx, i) && data[i] == b
  {
    assert data[i - |ctx|..i] == data[i - |ctx|..i + 1][..|ctx|];
    assert data[i] == data[i - |ctx|..i + 1][|ctx|];
  }

  lemma FollowedGram(data: Gram, ctx: Gram, i: int)
    requires FollowedAt(data, ctx, i)
    ensures EndsAt(data, ctx + [data[i]], i)
  {
    assert data[i - |ctx|..i + 1] == data[i - |ctx|..i] + [data[i]];
  }

  lemma ExtendedIffRevisited(data: Gram, ctx: Gram)
    ensures Extended(data, ctx) != {} <==> Revisited(data, ctx)
  {
    if Extended(data, ctx) != {} {
      var b :| b in Extended(data, ctx);
      LeftIsSeen(data, ctx + [b]);
      var i :| |ctx + [b]| <= i && EndsAt(data, ctx + [b], i);
      GramFollows(data, ctx, b, i);
    }
    if i :| i > |ctx| && FollowedAt(data, ctx, i) {
      FollowedGram(data, ctx, i);
      LeftIsSeen(data, ctx + [data[i]]);
      assert data[i] in Extended(data, ctx);
    }
  }

  lemma RevisitedIff(data: Gram, ctx: Gram)
    ensures Total(LeftCounts(data, ctx)) > 0 <==> Revisited(data, ctx)
    ensures Total(LeftCounts(data, ctx)) > 0 <==> |Extended(data, ctx)| > 0
  {
    ExtendedIffRevisited(data, ctx);
    SupportEmpty(LeftCounts(data, ctx));
  }

  lemma SupportEmpty(cs: seq<nat>)
    requires |cs| == VOCAB
    ensures Total(cs) > 0 <==> Support(cs) != {}
    ensures |Support(cs)| > 0 <==> Support(cs) != {}
  {
    TotalZero(cs);
    if b: int :| 0 <= b < |cs| && cs[b] != 0 {
      assert b in Support(cs);
    }
  }

  /** s makes a context give out too much: it starts the data and comes back, but the byte that
      follows it at the start never does. */
  ghost predicate Defect(data: Gram, s: Gram) {
    Orphan(data, s) && Revisited(data, s)
  }

  ghost predicate NoDefect(data: Gram, ctx: Gram) {
    forall j :: 0 <= j < |ctx| ==> !Defect(data, ctx[j..])
  }

  lemma NoDefectTail(data: Gram, ctx: Gram)
    requires ctx != []
    ensures NoDefect(data, ctx) <==> !Defect(data, ctx) && NoDefect(data, ctx[1..])
  {
    assert ctx[0..] == ctx;
    forall j | 0 <= j < |ctx| - 1
      ensures ctx[1..][j..] == ctx[j + 1..]
    {
    }
    if !Defect(data, ctx) && NoDefect(data, ctx[1..]) {
      forall j | 0 <= j < |ctx|
        ensures !Defect(data, ctx[j..])
      {
        assert j > 0 ==> ctx[j..] == ctx[1..][j - 1..];
      }
    }
    if NoDefect(data, ctx) {
      forall j | 0 <= j < |ctx| - 1
        ensures !Defect(data, ctx[1..][j..])
      {
        assert ctx[1..][j..] == ctx[j + 1..];
      }
    }
  }

  lemma DotDotPositive(t: Tables, data: Gram, n: nat)
    requires TrainedOn(t, data, n) && n >= 2
    ensures t.dotDot > 0 <==> |data| >= 2
  {
    TotalZero(RowSeq(t.leftByte));
    if |data| >= 2 {
      var w := data[1];
      assert data[1..2] == [w];
      assert EndsAt(data, [w], 1);
      LeftIsSeen(data, [w]);
      assert RowSeq(t.leftByte)[w] == |Lefts(data, [w])| > 0;
    }
    if t.dotDot > 0 {
      var w: Byte :| RowSeq(t.leftByte)[w] != 0;
      assert |Lefts(data, [w])| > 0;
      LeftIsSeen(data, [w]);
    }
  }

  lemma UnigramSum(m: Model, t: Tables, cs: seq<nat>, den: real) returns (sum: real)
    requires Shaped(t, m.n) && m.n >= 1 && cs == RowSeq(t.leftByte)
    requires den == (if t.dotDot == 0 then 1 else t.dotDot) as real + 256.0 * EPS
    ensures LowerMass(m, t, 1, []) == sum / den && sum == Total(cs) as real + 256.0 * EPS
  {
    var ps := LowerProbs(m, t, 1, []);
    forall b | 0 <= b < VOCAB
      ensures ps[b] == (cs[b] as real + EPS) / den
    {
      assert ps[b] == Continuation(m, t, 1, [], b);
    }
    sum := SumSmoothed(ps, cs, EPS, den);
  }

  lemma UnigramMass(m: Model, t: Tables, data: Gram)
    requires TrainedOn(t, data, m.n) && m.n >= 2
    ensures LowerMass(m, t, 1, []) == if |data| >= 2 then 1.0 else 256.0 * EPS / (1.0 + 256.0 * EPS)
  {
    DotDotPositive(t, data, m.n);
    var cs := RowSeq(t.leftByte);
    var den := (if t.dotDot == 0 then 1 else t.dotDot) as real + 256.0 * EPS;
    var sum := UnigramSum(m, t, cs, den);
    if |data| >= 2 {
      SelfRatio(sum, den);
    }
  }

  lemma LevelKeeps(m: Model, t: Tables, k: nat, ctx: Gram, cs: seq<nat>, right: nat, ext: nat)
    requires Discounting(m) && Shaped(t, m.n) && 2 <= k <= m.n && |ctx| == k - 1
    requires Level(t, k, ctx, cs, right) && Total(cs) > 0 && ext == |Support(cs)| && right >= ext >= 1
    requires LowerMass(m, t, k - 1, ctx[1..]) >= 1.0
    ensures LowerMass(m, t, k, ctx) >= 1.0
    ensures LowerMass(m, t, k, ctx) == 1.0 <==> LowerMass(m, t, k - 1, ctx[1..]) == 1.0 && right == ext
  {
    var d := m.lower(Get(t.totals[k], ctx));
    var disc := (c: nat) => d;
    var ps, qs := LevelBlends(m, t, k, ctx, cs, right, disc, d);
    ClassesPartition(cs);
    FlatVerdict(ps, disc, d, cs, right, ext, qs);
  }

  /** Above the unigram level, one level keeps mass 1 exactly when its context is not a defect. */
  lemma LevelProper(m: Model, t: Tables, data: Gram, k: nat, ctx: Gram)
    requires Discounting(m) && TrainedOn(t, data, m.n) && 2 <= k <= m.n && |ctx| == k - 1
    requires LowerMass(m, t, k - 1, ctx[1..]) >= 1.0
    ensures LowerMass(m, t, k, ctx) >= 1.0
    ensures LowerMass(m, t, k, ctx) == 1.0 <==> LowerMass(m, t, k - 1, ctx[1..]) == 1.0 && !Defect(data, ctx)
  {
    var cs := LeftCounts(data, ctx);
    TrainedLevel(t, data, m.n, k, ctx);
    RevisitedIff(data, ctx);
    if Total(cs) == 0 {
      LevelSkipped(m, t, k, ctx);
    } else {
      AllExtendedIff(data, ctx);
      LevelKeeps(m, t, k, ctx, cs, |Followers(data, ctx)|, |Extended(data, ctx)|);
    }
  }

  /** After training on at least two bytes, an order-k context gives out at least mass 1, and
      exactly 1 if and only if none of its suffixes is a defect of the training data. */
  lemma {:induction false} ContinuationProper(m: Model, t: Tables, data: Gram, k: nat, ctx: Gram)
    requires Discounting(m) && TrainedOn(t, data, m.n) && m.n >= 2 && 1 <= k <= m.n && |ctx| == k - 1 && |data| >= 2
    ensures LowerMass(m, t, k, ctx) >= 1.0
    ensures LowerMass(m, t, k, ctx) == 1.0 <==> NoDefect(data, ctx)
    decreases k
  {
    if k == 1 {
      UnigramMass(m, t, data);
    } else {
      ContinuationProper(m, t, data, k - 1, ctx[1..]);
      LevelProper(m, t, data, k, ctx);
      NoDefectTail(data, ctx);
    }
  }
}
