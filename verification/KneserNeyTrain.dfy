/** Training: the nested loops that fill the tables from the training data. */
module KneserNeyTrain {
  import opened Interpolation
  import opened KneserNey
  import opened KneserNeyFormulas
  import opened KneserNeyMass

  // ----- one table entry at a time -----

  function BumpRow(table: map<Gram, Row>, ctx: Gram, nxt: Byte): map<Gram, Row> {
    var row := RowOf(table, ctx);
    table[ctx := row[nxt := Get(row, nxt) + 1]]
  }

  function Bump(totals: map<Gram, nat>, ctx: Gram): map<Gram, nat> {
    totals[ctx := Get(totals, ctx) + 1]
  }

  function Put(table: map<Gram, nat>, key: Gram, value: nat): map<Gram, nat> {
    table[key := value]
  }

  function AddLeftOf(table: map<Gram, set<Byte>>, g: Gram, left: Byte): map<Gram, set<Byte>> {
    table[g := LeftsOf(table, g) + {left}]
  }

  lemma {:induction false} NoneEarly(data: Gram, g: Gram, n: nat)
    requires 0 < |g| && n < |g|
    ensures Occ(data, g, n) == 0
  {
    if n > 0 {
      NoneEarly(data, g, n - 1);
    }
  }

  lemma {:induction false} NoneLate(data: Gram, g: Gram, n: nat)
    requires 0 < |g| && n >= |data|
    ensures Occ(data, g, n) == Count(data, g)
  {
    if n > |data| {
      NoneLate(data, g, n - 1);
    }
  }

  lemma EndsWith(data: Gram, ctx: Gram, b: Byte, i: nat)
    requires |ctx| <= i < |data|
    ensures EndsAt(data, ctx + [b], i) <==> ctx == data[i - |ctx|..i] && b == data[i]
  {
    assert data[i - |ctx|..i + 1] == data[i - |ctx|..i] + [data[i]];
    if EndsAt(data, ctx + [b], i) {
      GramFollows(data, ctx, b, i);
      assert ctx == (ctx + [b])[..|ctx|] == data[i - |ctx|..i + 1][..|ctx|];
    }
  }

  lemma StartsWith(data: Gram, b: Byte, g: Gram, i: nat)
    requires |g| <= i < |data|
    ensures EndsAt(data, [b] + g, i) <==> b == data[i - |g|] && g == data[i - |g| + 1..i + 1]
  {
    assert data[i - |g|..i + 1] == [data[i - |g|]] + data[i - |g| + 1..i + 1];
    if EndsAt(data, [b] + g, i) {
      assert g == ([b] + g)[1..] == data[i - |g|..i + 1][1..];
      assert ([b] + g)[0] == data[i - |g|..i + 1][0];
    }
  }

  // ----- tables that grow by the data -----

  /** Contexts of order k, with continuations seen at least once. */
  ghost predicate RowsOf(table: map<Gram, Row>, k: nat) {
    && (forall ctx :: ctx in table ==> |ctx| == k - 1)
    && (forall ctx, b :: ctx in table && b in table[ctx] ==> table[ctx][b] > 0)
  }

  /** The counts of a table and those of the k-grams of the data that end before upTo. */
  ghost predicate CountsGrow(before: map<Gram, Row>, table: map<Gram, Row>, data: Gram, k: nat, upTo: nat)
    requires k >= 1
  {
    && (forall ctx: Gram, b: Byte {:trigger Occ(data, ctx + [b], upTo)} :: |ctx| == k - 1 ==>
          Get(RowOf(table, ctx), b) == Get(RowOf(before, ctx), b) + Occ(data, ctx + [b], upTo))
    && RowsOf(table, k) && before.Keys <= table.Keys
  }

  ghost predicate LeftsGrow(before: map<Gram, set<Byte>>, table: map<Gram, set<Byte>>, data: Gram, k: nat, upTo: nat)
    requires k >= 1
  {
    && (forall g: Gram, b: Byte {:trigger Occ(data, [b] + g, upTo)} :: |g| == k ==>
          (b in LeftsOf(table, g) <==> b in LeftsOf(before, g) || Occ(data, [b] + g, upTo) > 0))
    && (forall g :: g in table ==> |g| == k)
  }

  lemma CountsStart(before: map<Gram, Row>, data: Gram, k: nat, n: nat)
    requires 1 <= k && n < k && RowsOf(before, k)
    ensures CountsGrow(before, before, data, k, n)
  {
    forall ctx: Gram, b: Byte | |ctx| == k - 1
      ensures Occ(data, ctx + [b], n) == 0
    {
      NoneEarly(data, ctx + [b], n);
    }
  }

  lemma CountsStep(before: map<Gram, Row>, table: map<Gram, Row>, data: Gram, k: nat, i: nat)
    requires 1 <= k <= i + 1 && i < |data| && CountsGrow(before, table, data, k, i)
    ensures CountsGrow(before, BumpRow(table, data[i - k + 1..i], data[i]), data, k, i + 1)
  {
    var after := BumpRow(table, data[i - k + 1..i], data[i]);
    forall ctx: Gram, b: Byte | |ctx| == k - 1
      ensures Get(RowOf(after, ctx), b) == Get(RowOf(before, ctx), b) + Occ(data, ctx + [b], i + 1)
    {
      EndsWith(data, ctx, b, i);
      assert Get(RowOf(table, ctx), b) == Get(RowOf(before, ctx), b) + Occ(data, ctx + [b], i);
    }
  }

  lemma CountsEnd(before: map<Gram, Row>, table: map<Gram, Row>, data: Gram, k: nat, n: nat)
    requires 1 <= k && n >= |data| && CountsGrow(before, table, data, k, n)
    ensures CountsGrow(before, table, data, k, |data|)
  {
    forall ctx: Gram, b: Byte | |ctx| == k - 1
      ensures Get(RowOf(table, ctx), b) == Get(RowOf(before, ctx), b) + Occ(data, ctx + [b], |data|)
    {
      NoneLate(data, ctx + [b], n);
    }
  }

  lemma LeftsStart(before: map<Gram, set<Byte>>, data: Gram, k: nat, n: nat)
    requires 1 <= k && n <= k && forall g :: g in before ==> |g| == k
    ensures LeftsGrow(before, before, data, k, n)
  {
    forall g: Gram, b: Byte | |g| == k
      ensures Occ(data, [b] + g, n) == 0
    {
      NoneEarly(data, [b] + g, n);
    }
  }

  lemma LeftAt(table: map<Gram, set<Byte>>, data: Gram, k: nat, i: nat, g: Gram, b: Byte)
    requires 1 <= k <= i < |data| && |g| == k
    ensures b in LeftsOf(AddLeftOf(table, data[i - k + 1..i + 1], data[i - k]), g)
            <==> b in LeftsOf(table, g) || EndsAt(data, [b] + g, i)
  {
    StartsWith(data, b, g, i);
  }

  lemma LeftsStep(before: map<Gram, set<Byte>>, table: map<Gram, set<Byte>>, data: Gram, k: nat, i: nat)
    requires 1 <= k <= i < |data| && LeftsGrow(before, table, data, k, i)
    ensures LeftsGrow(before, AddLeftOf(table, data[i - k + 1..i + 1], data[i - k]), data, k, i + 1)
  {
    var after := AddLeftOf(table, data[i - k + 1..i + 1], data[i - k]);
    forall g: Gram, b: Byte | |g| == k
      ensures b in LeftsOf(after, g) <==> b in LeftsOf(before, g) || Occ(data, [b] + g, i + 1) > 0
    {
      LeftAt(table, data, k, i, g, b);
      assert b in LeftsOf(table, g) <==> b in LeftsOf(before, g) || Occ(data, [b] + g, i) > 0;
    }
  }

  lemma LeftsEnd(before: map<Gram, set<Byte>>, table: map<Gram, set<Byte>>, data: Gram, k: nat, n: nat)
    requires 1 <= k && n >= |data| && LeftsGrow(before, table, data, k, n)
    ensures LeftsGrow(before, table, data, k, |data|)
  {
    forall g: Gram, b: Byte | |g| == k
      ensures b in LeftsOf(table, g) <==> b in LeftsOf(before, g) || Occ(data, [b] + g, |data|) > 0
    {
      NoneLate(data, [b] + g, n);
    }
  }

  lemma FirstCounts(table: map<Gram, Row>, data: Gram, k: nat)
    requires 1 <= k && CountsGrow(map[], table, data, k, |data|)
    ensures CountsMean(table, data, k, |data|)
  {
    forall ctx: Gram, b: Byte | |ctx| == k - 1
      ensures Get(RowOf(table, ctx), b) == Occ(data, ctx + [b], |data|)
    {
    }
  }

  lemma FirstLefts(table: map<Gram, set<Byte>>, data: Gram, k: nat)
    requires 1 <= k && LeftsGrow(map[], table, data, k, |data|)
    ensures LeftsMean(table, data, k, |data|)
  {
    forall g: Gram, b: Byte | |g| == k
      ensures b in LeftsOf(table, g) <==> Occ(data, [b] + g, |data|) > 0
    {
    }
  }

  // ----- sums over a row -----

  lemma TotalsStep(totals: map<Gram, nat>, table: map<Gram, Row>, ctx: Gram, nxt: Byte)
    requires TotalsMean(totals, table)
    ensures TotalsMean(Bump(totals, ctx), BumpRow(table, ctx, nxt))
  {
    var after := BumpRow(table, ctx, nxt);
    forall c: Gram
      ensures Get(Bump(totals, ctx), c) == Total(RowSeq(RowOf(after, c)))
    {
      var row := RowOf(table, c);
      assert Get(totals, c) == Total(RowSeq(row));
      if c == ctx {
        assert RowSeq(RowOf(after, c)) == RowSeq(row)[nxt := Get(row, nxt) + 1];
        TotalSet(RowSeq(row), nxt, Get(row, nxt) + 1);
      }
    }
  }

  /** The sum of a table's values, taken entry by entry in whatever order they come. */
  method SumValues(m: map<Byte, nat>) returns (sum: nat)
    ensures sum == Total(RowSeq(m))
  {
    sum := 0;
    var rest := m;
    while rest != map[]
      invariant sum + Total(RowSeq(rest)) == Total(RowSeq(m))
      decreases |rest|
    {
      var w :| w in rest;
      var fewer := rest - {w};
      assert RowSeq(fewer) == RowSeq(rest)[w := 0];
      TotalSet(RowSeq(rest), w, 0);
      assert fewer.Keys == rest.Keys - {w};
      sum, rest := sum + rest[w], fewer;
    }
    TotalZero(RowSeq(map[]));
  }

  function ClassAmong(row: Row, bytes: set<Byte>, c: nat): set<Byte> {
    set b | b in bytes && b in row && Class(row[b]) == c
  }

  lemma ClassGrows(row: Row, todo: set<Byte>, w: Byte, c: nat)
    requires todo <= row.Keys && w in todo
    ensures |ClassAmong(row, row.Keys - (todo - {w}), c)|
         == |ClassAmong(row, row.Keys - todo, c)| + if Class(row[w]) == c then 1 else 0
  {
    var before := ClassAmong(row, row.Keys - todo, c);
    assert ClassAmong(row, row.Keys - (todo - {w}), c) == if Class(row[w]) == c then before + {w} else before;
  }

  lemma ClassAll(row: Row, c: nat)
    ensures |ClassAmong(row, row.Keys, c)| == ClassSize(row, c)
  {
    assert ClassAmong(row, row.Keys, c) == set b | b in row && Class(row[b]) == c;
  }

  /** Numbers of continuations seen once, twice, and more often. */
  method CountClassCounts(row: Row) returns (n1: nat, n2: nat, n3: nat)
    requires forall b :: b in row ==> row[b] > 0
    ensures n1 == ClassSize(row, 1) && n2 == ClassSize(row, 2) && n3 == ClassSize(row, 3)
  {
    n1, n2, n3 := 0, 0, 0;
    var todo := row.Keys;
    while todo != {}
      invariant todo <= row.Keys
      invariant n1 == |ClassAmong(row, row.Keys - todo, 1)|
      invariant n2 == |ClassAmong(row, row.Keys - todo, 2)|
      invariant n3 == |ClassAmong(row, row.Keys - todo, 3)|
    {
      var w :| w in todo;
      ClassGrows(row, todo, w, 1);
      ClassGrows(row, todo, w, 2);
      ClassGrows(row, todo, w, 3);
      if row[w] == 1 {
        n1 := n1 + 1;
      } else if row[w] == 2 {
        n2 := n2 + 1;
      } else {
        n3 := n3 + 1;
      }
      todo := todo - {w};
    }
    assert row.Keys - todo == row.Keys;
    ClassAll(row, 1);
    ClassAll(row, 2);
    ClassAll(row, 3);
  }

  /** The counts of some bytes, and none of the others. */
  function Only(cs: seq<nat>, bytes: set<Byte>): (r: seq<nat>)
    requires |cs| == VOCAB
    ensures |r| == VOCAB
  {
    seq(VOCAB, b requires 0 <= b < VOCAB => if b in bytes then cs[b] else 0)
  }

  lemma OnlyOne(cs: seq<nat>, bytes: set<Byte>, w: Byte)
    requires |cs| == VOCAB && w !in bytes
    ensures Total(Only(cs, bytes + {w})) == Total(Only(cs, bytes)) + cs[w]
  {
    assert Only(cs, bytes + {w}) == Only(cs, bytes)[w := cs[w]];
    TotalSet(Only(cs, bytes), w, cs[w]);
  }

  ghost predicate Counted(before: map<Gram, Row>, table: map<Gram, Row>, totals: map<Gram, nat>, data: Gram, k: nat,
                          upTo: nat)
    requires k >= 1
  {
    CountsGrow(before, table, data, k, upTo) && TotalsMean(totals, table)
  }

  lemma CountedStep(before: map<Gram, Row>, table: map<Gram, Row>, totals: map<Gram, nat>, data: Gram, k: nat, i: nat)
    requires 1 <= k <= i + 1 && i < |data| && Counted(before, table, totals, data, k, i)
    ensures var ctx := data[i - k + 1..i];
            Counted(before, BumpRow(table, ctx, data[i]), Bump(totals, ctx), data, k, i + 1)
  {
    CountsStep(before, table, data, k, i);
    TotalsStep(totals, table, data[i - k + 1..i], data[i]);
  }

  // ----- bytes before bytes -----

  function PrecedersOf(m: map<Byte, set<Byte>>, w: Byte): set<Byte> {
    if w in m then m[w] else {}
  }

  /** The bytes that a bigram table has before byte w. */
  function Preceding(table: map<Gram, Row>, w: Byte): set<Byte> {
    set a: Byte | 0 <= a < VOCAB && w in RowOf(table, [a])
  }

  lemma PrecedingLefts(table: map<Gram, Row>, data: Gram, w: Byte)
    requires CountsMean(table, data, 2, |data|)
    ensures Preceding(table, w) == Lefts(data, [w])
  {
    forall a: Byte
      ensures w in RowOf(table, [a]) <==> a in Lefts(data, [w])
    {
      assert Get(RowOf(table, [a]), w) == Occ(data, [a] + [w], |data|);
    }
  }

  /** The bytes seen before each byte, read off the bigram table. */
  method CollectPreceders(table: map<Gram, Row>) returns (preceders: map<Byte, set<Byte>>)
    requires forall ctx :: ctx in table ==> |ctx| == 1
    ensures forall a: Byte, w: Byte :: a in PrecedersOf(preceders, w) <==> w in RowOf(table, [a])
  {
    preceders := map[];
    var todo := table.Keys;
    while todo != {}
      invariant todo <= table.Keys
      invariant forall a: Byte, w: Byte :: a in PrecedersOf(preceders, w) <==> [a] !in todo && w in RowOf(table, [a])
    {
      var ctx :| ctx in todo;
      var a := ctx[0];
      assert ctx == [a];
      ghost var before := preceders;
      var words := table[ctx].Keys;
      while words != {}
        invariant words <= table[ctx].Keys
        invariant forall w: Byte :: PrecedersOf(preceders, w)
                    == PrecedersOf(before, w) + if w in table[ctx] && w !in words then {a} else {}
      {
        var w :| w in words;
        preceders := preceders[w := PrecedersOf(preceders, w) + {a}];
        words := words - {w};
      }
      todo := todo - {ctx};
    }
  }

  // ----- what training keeps and adds -----

  ghost predicate LevelTidy(t: Tables, k: nat)
    requires k < |t.counts| == |t.totals| == |t.right| == |t.left|
  {
    && RowsOf(t.counts[k], k) && TotalsMean(t.totals[k], t.counts[k])
    && t.right[k].Keys <= t.counts[k].Keys
    && forall g :: g in t.left[k] ==> |g| == k
  }

  /** Tables that any number of trainings left. */
  ghost predicate Tidy(t: Tables, n: nat) {
    n >= 1 && Shaped(t, n) && forall k :: 1 <= k <= n ==> LevelTidy(t, k)
  }

  ghost predicate Blank(t: Tables, n: nat) {
    && n >= 1 && Shaped(t, n)
    && forall k :: 0 <= k <= n ==>
         t.counts[k] == map[] && t.totals[k] == map[] && t.right[k] == map[] && t.left[k] == map[]
  }

  lemma BlankIsTidy(t: Tables, n: nat)
    requires Blank(t, n)
    ensures Tidy(t, n)
  {
    TotalZero(RowSeq(map[]));
  }

  ghost predicate AllCounted(before: seq<map<Gram, Row>>, counts: seq<map<Gram, Row>>, totals: seq<map<Gram, nat>>,
                             data: Gram, n: nat) {
    && |before| == |counts| == |totals| == n + 1
    && forall k :: 1 <= k <= n ==> CountsGrow(before[k], counts[k], data, k, |data|) && TotalsMean(totals[k], counts[k])
  }

  ghost predicate AllRight(right: seq<map<Gram, nat>>, counts: seq<map<Gram, Row>>, n: nat) {
    && |right| == |counts| == n + 1
    && forall k :: 1 <= k <= n ==> RightMean(right[k], counts[k]) && right[k].Keys <= counts[k].Keys
  }

  ghost predicate AllLeft(before: seq<map<Gram, set<Byte>>>, left: seq<map<Gram, set<Byte>>>, data: Gram, n: nat) {
    && |before| == |left| == n + 1
    && (forall k :: 2 <= k <= n ==> LeftsGrow(before[k], left[k], data, k, |data|))
    && (forall k :: 0 <= k <= n && k < 2 ==> left[k] == before[k])
  }

  /** The tables after one more training: what they held and what the new data holds. */
  ghost predicate TrainedMore(before: Tables, t: Tables, data: Gram, n: nat) {
    && n >= 1 && Shaped(before, n) && Shaped(t, n)
    && AllCounted(before.counts, t.counts, t.totals, data, n)
    && AllRight(t.right, t.counts, n)
    && AllLeft(before.left, t.left, data, n)
    && (n >= 2 ==>
          && (forall w: Byte :: Get(t.leftByte, w) == |Preceding(t.counts[2], w)|)
          && t.dotDot == Total(RowSeq(t.leftByte)))
    && (n == 1 ==> t.dotDot == if Get(t.totals[1], []) > 1 then Get(t.totals[1], []) else 1)
  }

  lemma StaysTidy(before: Tables, t: Tables, data: Gram, n: nat)
    requires Tidy(before, n) && TrainedMore(before, t, data, n)
    ensures Tidy(t, n)
  {
    forall k | 1 <= k <= n
      ensures LevelTidy(t, k)
    {
      assert LevelTidy(before, k);
    }
  }

  /** The first training leaves tables that mean the data. */
  lemma FirstTraining(before: Tables, t: Tables, data: Gram, n: nat)
    requires Blank(before, n) && TrainedMore(before, t, data, n)
    ensures TrainedOn(t, data, n)
  {
    forall k | 1 <= k <= n
      ensures CountsMean(t.counts[k], data, k, |data|)
    {
      FirstCounts(t.counts[k], data, k);
    }
    forall k | 2 <= k <= n
      ensures LeftsMean(t.left[k], data, k, |data|)
    {
      FirstLefts(t.left[k], data, k);
    }
    if n >= 2 {
      forall w: Byte
        ensures Preceding(t.counts[2], w) == Lefts(data, [w])
      {
        PrecedingLefts(t.counts[2], data, w);
      }
    }
  }

  lemma RightKeysKept(before: Tables, counts: seq<map<Gram, Row>>, totals: seq<map<Gram, nat>>, data: Gram, n: nat)
    requires Tidy(before, n) && AllCounted(before.counts, counts, totals, data, n)
    ensures forall k :: 1 <= k <= n ==> before.right[k].Keys <= counts[k].Keys && RowsOf(counts[k], k)
    ensures forall k, g :: 2 <= k <= n && g in before.left[k] ==> |g| == k
  {
    forall k | 1 <= k <= n
      ensures before.right[k].Keys <= counts[k].Keys && RowsOf(counts[k], k)
      ensures forall g :: g in before.left[k] ==> |g| == k
    {
      assert LevelTidy(before, k);
    }
  }

  /** Training on two texts counts every gram of both, and no gram across them. */
  lemma TwoTrainings(t0: Tables, t1: Tables, t2: Tables, first: Gram, second: Gram, n: nat, ctx: Gram, b: Byte)
    requires Blank(t0, n) && TrainedMore(t0, t1, first, n) && TrainedMore(t1, t2, second, n) && |ctx| < n
    ensures Get(RowOf(t2.counts[|ctx| + 1], ctx), b) == Count(first, ctx + [b]) + Count(second, ctx + [b])
  {
    var k := |ctx| + 1;
    assert CountsGrow(t0.counts[k], t1.counts[k], first, k, |first|);
    assert CountsGrow(t1.counts[k], t2.counts[k], second, k, |second|);
    assert Occ(first, ctx + [b], |first|) == Count(first, ctx + [b]);
    assert Occ(second, ctx + [b], |second|) == Count(second, ctx + [b]);
  }

  /** The neighbours seen are those of either text. */
  lemma TwoTrainingsFollow(t0: Tables, t1: Tables, t2: Tables, first: Gram, second: Gram, n: nat, ctx: Gram)
    requires Blank(t0, n) && TrainedMore(t0, t1, first, n) && TrainedMore(t1, t2, second, n) && |ctx| < n
    ensures Get(t2.right[|ctx| + 1], ctx) == |Followers(first, ctx) + Followers(second, ctx)|
  {
    var row := RowOf(t2.counts[|ctx| + 1], ctx);
    forall b: Byte
      ensures b in row <==> Seen(first, ctx + [b]) || Seen(second, ctx + [b])
    {
      TwoTrainings(t0, t1, t2, first, second, n, ctx, b);
    }
    assert row.Keys == Followers(first, ctx) + Followers(second, ctx);
  }

  lemma TwoTrainingsPrecede(t0: Tables, t1: Tables, t2: Tables, first: Gram, second: Gram, n: nat, g: Gram)
    requires Blank(t0, n) && TrainedMore(t0, t1, first, n) && TrainedMore(t1, t2, second, n) && 2 <= |g| <= n
    ensures LeftsOf(t2.left[|g|], g) == Lefts(first, g) + Lefts(second, g)
  {
    assert LeftsGrow(t0.left[|g|], t1.left[|g|], first, |g|, |first|);
    assert LeftsGrow(t1.left[|g|], t2.left[|g|], second, |g|, |second|);
    forall b: Byte
      ensures b in LeftsOf(t2.left[|g|], g) <==> Seen(first, [b] + g) || Seen(second, [b] + g)
    {
      assert Occ(first, [b] + g, |first|) == Count(first, [b] + g);
      assert Occ(second, [b] + g, |second|) == Count(second, [b] + g);
    }
  }

  /** With n = 1 the number of bigram types is replaced by the number of bytes, or 1 without any. */
  lemma FirstDots(before: Tables, t: Tables, data: Gram)
    requires Blank(before, 1) && TrainedMore(before, t, data, 1)
    ensures t.dotDot == if data == [] then 1 else |data|
  {
    FirstTraining(before, t, data, 1);
    SingleTables(t, data, 0);
  }

  // ----- the class -----

  class KneserNeyNGram {
    const n: nat
    var counts: seq<map<Gram, Row>>
    var totals: seq<map<Gram, nat>>
    var right: seq<map<Gram, nat>>
    var left: seq<map<Gram, set<Byte>>>
    var leftByte: map<Byte, nat>
    var dotDot: nat

    function Snapshot(): Tables
      reads this
    {
      Tables(counts, totals, right, left, leftByte, dotDot)
    }

    constructor (order: int)
      ensures n == (if order < 1 then 1 else order) && Blank(Snapshot(), n) && Tidy(Snapshot(), n)
    {
      var k := if order < 1 then 1 else order;
      n := k;
      counts := seq(k + 1, _ => map[]);
      totals := seq(k + 1, _ => map[]);
      right := seq(k + 1, _ => map[]);
      left := seq(k + 1, _ => map[]);
      leftByte := map[];
      dotDot := 0;
      new;
      BlankIsTidy(Snapshot(), n);
    }

    /** One position of the data: one more occurrence of its byte after its context. */
    method CountOne(data: Gram, k: nat, i: nat, ghost before: map<Gram, Row>)
      requires Shaped(Snapshot(), n) && 1 <= k <= n && k <= i + 1 && i < |data|
      requires Counted(before, counts[k], totals[k], data, k, i)
      modifies this`counts, this`totals
      ensures |counts| == |totals| == n + 1
      ensures counts == old(counts)[k := counts[k]] && totals == old(totals)[k := totals[k]]
      ensures Counted(before, counts[k], totals[k], data, k, i + 1)
    {
      var ctx, nxt := data[i - k + 1..i], data[i];
      CountedStep(before, counts[k], totals[k], data, k, i);
      counts := counts[k := BumpRow(counts[k], ctx, nxt)];
      totals := totals[k := Bump(totals[k], ctx)];
    }

    method CountGrams(data: Gram, k: nat)
      requires Shaped(Snapshot(), n) && 1 <= k <= n && RowsOf(counts[k], k) && TotalsMean(totals[k], counts[k])
      modifies this`counts, this`totals
      ensures |counts| == |totals| == n + 1
      ensures counts == old(counts)[k := counts[k]] && totals == old(totals)[k := totals[k]]
      ensures CountsGrow(old(counts)[k], counts[k], data, k, |data|) && TotalsMean(totals[k], counts[k])
    {
      var i := k - 1;
      CountsStart(counts[k], data, k, i);
      while i < |data|
        invariant k - 1 <= i && |counts| == |totals| == n + 1
        invariant counts == old(counts)[k := counts[k]] && totals == old(totals)[k := totals[k]]
        invariant Counted(old(counts)[k], counts[k], totals[k], data, k, i)
      {
        CountOne(data, k, i, old(counts)[k]);
        i := i + 1;
      }
      CountsEnd(old(counts)[k], counts[k], data, k, i);
    }

    method CountRight(k: nat)
      requires Shaped(Snapshot(), n) && 1 <= k <= n && right[k].Keys <= counts[k].Keys
      modifies this`right
      ensures |right| == n + 1 && right == old(right)[k := right[k]]
      ensures RightMean(right[k], counts[k]) && right[k].Keys <= counts[k].Keys
    {
      var todo := counts[k].Keys;
      while todo != {}
        invariant todo <= counts[k].Keys && |right| == n + 1 && right == old(right)[k := right[k]]
        invariant counts[k].Keys - todo <= right[k].Keys <= counts[k].Keys
        invariant forall ctx :: ctx in right[k] && ctx !in todo ==> right[k][ctx] == |counts[k][ctx]|
      {
        var ctx :| ctx in todo;
        right := right[k := Put(right[k], ctx, |counts[k][ctx]|)];
        todo := todo - {ctx};
      }
    }

    method CollectLeft(data: Gram, k: nat)
      requires Shaped(Snapshot(), n) && 2 <= k <= n && forall g :: g in left[k] ==> |g| == k
      modifies this`left
      ensures |left| == n + 1 && left == old(left)[k := left[k]]
      ensures LeftsGrow(old(left)[k], left[k], data, k, |data|)
    {
      var i := k;
      LeftsStart(left[k], data, k, i);
      while i < |data|
        invariant k <= i && |left| == n + 1 && left == old(left)[k := left[k]]
        invariant LeftsGrow(old(left)[k], left[k], data, k, i)
      {
        LeftsStep(old(left)[k], left[k], data, k, i);
        left := left[k := AddLeftOf(left[k], data[i - k + 1..i + 1], data[i - k])];
        i := i + 1;
      }
      LeftsEnd(old(left)[k], left[k], data, k, i);
    }

    method CountLeftBytes()
      requires Shaped(Snapshot(), n) && n >= 2 && RowsOf(counts[2], 2)
      modifies this`leftByte, this`dotDot
      ensures forall w: Byte :: Get(leftByte, w) == |Preceding(counts[2], w)|
      ensures dotDot == Total(RowSeq(leftByte))
    {
      var preceders := CollectPreceders(counts[2]);
      leftByte := map w | w in preceders :: |preceders[w]|;
      forall w: Byte
        ensures PrecedersOf(preceders, w) == Preceding(counts[2], w)
      {
      }
      dotDot := SumValues(leftByte);
    }

    method CountAllGrams(data: Gram)
      requires Tidy(Snapshot(), n)
      modifies this`counts, this`totals
      ensures AllCounted(old(counts), counts, totals, data, n)
    {
      for k := 1 to n + 1
        invariant |counts| == |totals| == n + 1
        invariant forall j :: k <= j <= n ==> counts[j] == old(counts)[j] && totals[j] == old(totals)[j]
        invariant forall j :: 1 <= j < k ==>
                    CountsGrow(old(counts)[j], counts[j], data, j, |data|) && TotalsMean(totals[j], counts[j])
      {
        assert LevelTidy(old(Snapshot()), k);
        CountGrams(data, k);
      }
    }

    method CountAllRight()
      requires Shaped(Snapshot(), n) && forall k :: 1 <= k <= n ==> right[k].Keys <= counts[k].Keys
      modifies this`right
      ensures AllRight(right, counts, n)
    {
      for k := 1 to n + 1
        invariant |right| == n + 1 && forall j :: k <= j <= n ==> right[j] == old(right)[j]
        invariant forall j :: 1 <= j < k ==> RightMean(right[j], counts[j]) && right[j].Keys <= counts[j].Keys
      {
        CountRight(k);
      }
    }

    method CollectAllLeft(data: Gram)
      requires n >= 1 && Shaped(Snapshot(), n) && forall k, g :: 2 <= k <= n && g in left[k] ==> |g| == k
      modifies this`left
      ensures AllLeft(old(left), left, data, n)
    {
      for k := 2 to n + 1
        invariant |left| == n + 1 && forall j :: 0 <= j <= n && (j < 2 || k <= j) ==> left[j] == old(left)[j]
        invariant forall j :: 2 <= j < k ==> LeftsGrow(old(left)[j], left[j], data, j, |data|)
      {
        CollectLeft(data, k);
      }
    }

    /** Adds a text to the tables, whatever they were trained on before. */
    method Train(data: Gram)
      requires Tidy(Snapshot(), n)
      modifies this
      ensures TrainedMore(old(Snapshot()), Snapshot(), data, n) && Tidy(Snapshot(), n)
      ensures old(Blank(Snapshot(), n)) ==> TrainedOn(Snapshot(), data, n)
    {
      ghost var before := Snapshot();
      CountAllGrams(data);
      RightKeysKept(before, counts, totals, data, n);
      CountAllRight();
      CollectAllLeft(data);
      if n >= 2 {
        CountLeftBytes();
      } else {
        dotDot := if Get(totals[1], []) > 1 then Get(totals[1], []) else 1;
      }
      StaysTidy(before, Snapshot(), data, n);
      if Blank(before, n) {
        FirstTraining(before, Snapshot(), data, n);
      }
    }

    /** Distinct bytes before the context and each of its continuations, added up over the row. */
    method Denominator(k: nat, ctx: Gram) returns (den: nat)
      requires Shaped(Snapshot(), n) && k <= n
      ensures den == Total(LeftSeq(Snapshot(), k, ctx))
    {
      den := 0;
      var row := RowOf(counts[k], ctx);
      ghost var all := LeftSeq(Snapshot(), k, ctx);
      var todo := row.Keys;
      TotalZero(Only(all, {}));
      assert row.Keys - todo == {};
      while todo != {}
        invariant todo <= row.Keys && den == Total(Only(all, row.Keys - todo))
      {
        var w :| w in todo;
        OnlyOne(all, row.Keys - todo, w);
        assert row.Keys - (todo - {w}) == row.Keys - todo + {w};
        den := den + |LeftsOf(left[k], ctx + [w])|;
        todo := todo - {w};
      }
      assert Only(all, row.Keys - todo) == all;
    }

    /** The continuation probability, by recursion over the orders. */
    method ContinuationProb(m: Model, k: nat, ctx: Gram, nxt: Byte) returns (p: real)
      requires Shaped(Snapshot(), n) && m.n == n && 1 <= k <= n && |ctx| == k - 1
      ensures p == Continuation(m, Snapshot(), k, ctx, nxt)
      decreases k
    {
      if k == 1 {
        return Unigram(Snapshot(), nxt);
      }
      var num := |LeftsOf(left[k], ctx + [nxt])|;
      var den := Denominator(k, ctx);
      var lower := ContinuationProb(m, k - 1, ctx[1..], nxt);
      if den == 0 {
        return lower;
      }
      var d := m.lower(Get(totals[k], ctx));
      p := Interpolate(num, d, den, Flat(d, Get(right[k], ctx)), lower);
    }

    /** The probability of a byte after a context, from the highest order down. */
    method Prob(m: Model, ctx: Gram, nxt: Byte) returns (p: real)
      requires Shaped(Snapshot(), n) && m.n == n >= 1 && |ctx| == n - 1
      ensures p == HighestProb(m, Snapshot(), ctx, nxt)
    {
      var total := Get(totals[n], ctx);
      if n == 1 {
        return (Get(RowOf(counts[1], ctx), nxt) as real + 0.001) / ((if total == 0
              then 1 else total) as real + 256.0 * 0.001);
      }
      p := ContinuationProb(m, n - 1, ctx[1..], nxt);
      if total > 0 {
        p := TopBlend(m, Snapshot(), ctx, nxt, p);
      }
    }
  }
}
