/** The observed-remove set: rows of add tags and removal tags in bounded tables, and what they
    mean as sets of tags per element. */
module OrSets {
  import opened Collections
  import opened Semilattice

  // ----- the set as a map from elements to tags -----

  datatype Tags<T> = Tags(adds: set<T>, rems: set<T>)

  type State<!E, T> = map<E, Tags<T>>

  function TagsIn<E(==), T>(s: State<E, T>, e: E): Tags<T> {
    if e in s then s[e] else Tags({}, {})
  }

  function Union<T(==)>(x: Tags<T>, y: Tags<T>): Tags<T> {
    Tags(x.adds + y.adds, x.rems + y.rems)
  }

  function JoinStates<E(==), T(==)>(a: State<E, T>, b: State<E, T>): State<E, T> {
    map e | e in a.Keys + b.Keys :: Union(TagsIn(a, e), TagsIn(b, e))
  }

  /** An element is in the set while some add of it has not been removed. */
  predicate Live<T(==)>(tags: Tags<T>) {
    !(tags.adds <= tags.rems)
  }

  lemma JoinCommutes<E, T>(a: State<E, T>, b: State<E, T>)
    ensures JoinStates(a, b) == JoinStates(b, a)
  {
    assert JoinStates(a, b).Keys == JoinStates(b, a).Keys;
    forall e | e in JoinStates(a, b)
      ensures JoinStates(a, b)[e] == JoinStates(b, a)[e]
    {
      assert Union(TagsIn(a, e), TagsIn(b, e)) == Union(TagsIn(b, e), TagsIn(a, e));
    }
  }

  lemma JoinTags<E, T>(a: State<E, T>, b: State<E, T>, e: E)
    ensures TagsIn(JoinStates(a, b), e) == Union(TagsIn(a, e), TagsIn(b, e))
  {
  }

  lemma UnionAssociates<T>(x: Tags<T>, y: Tags<T>, z: Tags<T>)
    ensures Union(x, Union(y, z)) == Union(Union(x, y), z)
  {
    assert x.adds + (y.adds + z.adds) == x.adds + y.adds + z.adds;
    assert x.rems + (y.rems + z.rems) == x.rems + y.rems + z.rems;
  }

  lemma AssociatesAt<E, T>(a: State<E, T>, b: State<E, T>, c: State<E, T>, e: E)
    ensures TagsIn(JoinStates(a, JoinStates(b, c)), e) == TagsIn(JoinStates(JoinStates(a, b), c), e)
  {
    JoinTags(b, c, e);
    JoinTags(a, b, e);
    JoinTags(a, JoinStates(b, c), e);
    JoinTags(JoinStates(a, b), c, e);
    UnionAssociates(TagsIn(a, e), TagsIn(b, e), TagsIn(c, e));
  }

  lemma SameState<E, T>(l: State<E, T>, r: State<E, T>)
    requires l.Keys == r.Keys && forall e :: e in l ==> TagsIn(l, e) == TagsIn(r, e)
    ensures l == r
  {
    forall e | e in l
      ensures l[e] == r[e]
    {
      assert TagsIn(l, e) == TagsIn(r, e);
    }
  }

  lemma JoinAssociates<E, T>(a: State<E, T>, b: State<E, T>, c: State<E, T>)
    ensures JoinStates(a, JoinStates(b, c)) == JoinStates(JoinStates(a, b), c)
  {
    var l, r := JoinStates(a, JoinStates(b, c)), JoinStates(JoinStates(a, b), c);
    forall e | e in l
      ensures TagsIn(l, e) == TagsIn(r, e)
    {
      AssociatesAt(a, b, c, e);
    }
    SameState(l, r);
  }

  lemma JoinIdempotent<E, T>(a: State<E, T>)
    ensures JoinStates(a, a) == a
  {
    assert JoinStates(a, a).Keys == a.Keys;
    forall e | e in a
      ensures JoinStates(a, a)[e] == a[e]
    {
      assert Union(a[e], a[e]) == a[e];
    }
  }

  lemma StatesJoin<E(!new), T(!new)>()
    ensures Joins(JoinStates<E, T>, s => true)
  {
    forall a: State<E, T>
      ensures JoinStates(a, a) == a
    {
      JoinIdempotent(a);
    }
    forall a: State<E, T>, b: State<E, T>
      ensures JoinStates(a, b) == JoinStates(b, a)
    {
      JoinCommutes(a, b);
    }
    forall a: State<E, T>, b: State<E, T>, c: State<E, T>
      ensures JoinStates(a, JoinStates(b, c)) == JoinStates(JoinStates(a, b), c)
    {
      JoinAssociates(a, b, c);
    }
  }

  /** Replicas that merge the same sets, however often and in whatever order, agree on every
      element's tags, hence on the elements. */
  lemma SetsConverge<E(!new), T(!new)>(p: Plan<State<E, T>>, q: Plan<State<E, T>>)
    requires States(p) == States(q)
    ensures Fold(JoinStates<E, T>, p) == Fold(JoinStates<E, T>, q)
  {
    StatesJoin<E, T>();
    Converge(JoinStates<E, T>, s => true, p, q);
  }

  // ----- the tables -----

  /** An element's row: its add tags and its removal tags in the order they were written. */
  datatype Entry<E, T> = Entry(elem: E, adds: seq<T>, rems: seq<T>)

  type View<E, T> = seq<Entry<E, T>>

  function Find<E(==), T>(v: View<E, T>, e: E, i: nat): (r: int)
    requires i <= |v|
    ensures r == -1 || (i <= r < |v| && v[r].elem == e)
    decreases |v| - i
  {
    if i == |v| then -1 else if v[i].elem == e then i else Find(v, e, i + 1)
  }

  ghost predicate Distinct<E, T>(v: View<E, T>) {
    forall i :: 0 <= i < |v| ==> Find(v, v[i].elem, 0) == i
  }

  function Row<E(==), T>(v: View<E, T>, e: E): Entry<E, T> {
    var i := Find(v, e, 0);
    if i >= 0 then v[i] else Entry(e, [], [])
  }

  predicate Knows<E(==), T>(v: View<E, T>, e: E) {
    Find(v, e, 0) >= 0
  }

  ghost function Elems<E, T>(v: View<E, T>): set<E> {
    set i | 0 <= i < |v| :: v[i].elem
  }

  function ToSet<T(==)>(xs: seq<T>): set<T> {
    set x | x in xs
  }

  function TagsOf<E, T(==)>(x: Entry<E, T>): Tags<T> {
    Tags(ToSet(x.adds), ToSet(x.rems))
  }

  /** What the tables mean. */
  ghost function Meaning<E, T>(v: View<E, T>): State<E, T> {
    map e | e in Elems(v) :: TagsOf(Row(v, e))
  }

  // ----- the operations on the tables -----

  function Min(x: int, y: int): int {
    if x < y then x else y
  }

  /** The row of e is created while there is room for one. */
  function WithElem<E(==), T>(v: View<E, T>, maxElems: nat, e: E): View<E, T> {
    if Knows(v, e) || |v| >= maxElems then v else v + [Entry(e, [], [])]
  }

  function Added<E(==), T>(v: View<E, T>, maxElems: nat, maxTags: nat, e: E, tag: T): View<E, T> {
    var w := WithElem(v, maxElems, e);
    var i := Find(w, e, 0);
    if i < 0 || |w[i].adds| >= maxTags then w else w[i := w[i].(adds := w[i].adds + [tag])]
  }

  /** All add tags are copied behind the removal tags, also those removed before, until the
      row of removal tags is full. */
  function RemovedTags<T>(adds: seq<T>, rems: seq<T>, maxTags: nat): seq<T> {
    if |rems| >= maxTags then rems else rems + adds[..Min(|adds|, maxTags - |rems|)]
  }

  function Removed<E(==), T>(v: View<E, T>, maxTags: nat, e: E): View<E, T> {
    var i := Find(v, e, 0);
    if i < 0 then v else v[i := v[i].(rems := RemovedTags(v[i].adds, v[i].rems, maxTags))]
  }

  predicate Contains<E(==), T(==)>(v: View<E, T>, e: E) {
    Knows(v, e) && Live(TagsOf(Row(v, e)))
  }

  /** Appends what is new in ys while there is room. */
  function AppendNew<T(==)>(xs: seq<T>, ys: seq<T>, maxTags: nat): seq<T>
    decreases ys
  {
    if ys == [] || |xs| >= maxTags then xs
    else AppendNew(if ys[0] in xs then xs else xs + [ys[0]], ys[1..], maxTags)
  }

  function MergedEntry<E, T(==)>(x: Entry<E, T>, y: Entry<E, T>, maxTags: nat): Entry<E, T> {
    x.(adds := AppendNew(x.adds, y.adds, maxTags), rems := AppendNew(x.rems, y.rems, maxTags))
  }

  function MergeOne<E(==), T(==)>(v: View<E, T>, maxElems: nat, maxTags: nat, y: Entry<E, T>): View<E, T> {
    var w := WithElem(v, maxElems, y.elem);
    var i := Find(w, y.elem, 0);
    if i < 0 then w else w[i := MergedEntry(w[i], y, maxTags)]
  }

  function Merged<E(==), T(==)>(a: View<E, T>, b: View<E, T>, maxElems: nat, maxTags: nat): View<E, T> {
    if b == [] then a
    else MergeOne(Merged(a, b[..|b| - 1], maxElems, maxTags), maxElems, maxTags, b[|b| - 1])
  }

  // ----- rows under the operations -----

  lemma {:induction false} FindNone<E, T>(v: View<E, T>, e: E, k: nat)
    requires k <= |v|
    ensures Find(v, e, k) >= 0 <==> exists i :: k <= i < |v| && v[i].elem == e
    decreases |v| - k
  {
    if k < |v| {
      FindNone(v, e, k + 1);
      if Find(v, e, k + 1) >= 0 {
        var i :| k + 1 <= i < |v| && v[i].elem == e;
      }
    }
  }

  lemma KnowsElems<E, T>(v: View<E, T>, e: E)
    ensures Knows(v, e) <==> e in Elems(v)
  {
    FindNone(v, e, 0);
    if e in Elems(v) {
      var i :| 0 <= i < |v| && v[i].elem == e;
      assert Knows(v, e);
    }
    if Knows(v, e) {
      assert v[Find(v, e, 0)].elem in Elems(v);
    }
  }

  lemma {:induction false} FindSet<E, T>(v: View<E, T>, i: nat, x: Entry<E, T>, e: E, k: nat)
    requires i < |v| && x.elem == v[i].elem && k <= |v|
    ensures Find(v[i := x], e, k) == Find(v, e, k)
    decreases |v| - k
  {
    if k < |v| {
      FindSet(v, i, x, e, k + 1);
    }
  }

  lemma {:induction false} FindMore<E, T>(v: View<E, T>, x: Entry<E, T>, e: E, k: nat)
    requires k <= |v|
    ensures Find(v + [x], e, k) == if Find(v, e, k) >= 0 then Find(v, e, k) else if x.elem == e then |v| else -1
    decreases |v| - k
  {
    if k < |v| {
      FindMore(v, x, e, k + 1);
    }
  }

  /** Writing a row changes that row only. */
  lemma SetRow<E, T>(v: View<E, T>, i: nat, x: Entry<E, T>)
    requires Distinct(v) && i < |v| && x.elem == v[i].elem
    ensures Distinct(v[i := x])
    ensures forall e :: Knows(v[i := x], e) <==> Knows(v, e)
    ensures forall e :: Row(v[i := x], e) == if e == x.elem then x else Row(v, e)
  {
    assert Find(v, v[i].elem, 0) == i;
    forall e
      ensures Find(v[i := x], e, 0) == Find(v, e, 0)
      ensures Row(v[i := x], e) == if e == x.elem then x else Row(v, e)
    {
      FindSet(v, i, x, e, 0);
    }
  }

  lemma NewRow<E, T>(v: View<E, T>, maxElems: nat, e: E)
    requires Distinct(v)
    ensures var w := WithElem(v, maxElems, e);
            && Distinct(w) && (forall f :: Row(w, f) == Row(v, f))
            && (forall f :: Knows(w, f) <==> Knows(v, f) || (f == e && |v| < maxElems))
  {
    var x := Entry(e, [], []);
    forall f
      ensures Find(v + [x], f, 0) == if Find(v, f, 0) >= 0 then Find(v, f, 0) else if f == e then |v| else -1
    {
      FindMore(v, x, f, 0);
    }
  }

  // ----- what does not fit -----

  /** A tag is appended to the element's row, in a new last row if it has none; without room for the
      row or for the tag nothing changes, and neither does removing what is not known. */
  lemma OneAdd<E, T>(v: View<E, T>, maxElems: nat, maxTags: nat, e: E, tag: T)
    ensures !Knows(v, e) && |v| < maxElems && maxTags > 0 ==>
              Added(v, maxElems, maxTags, e, tag) == v + [Entry(e, [tag], [])]
    ensures !Knows(v, e) && |v| >= maxElems ==> Added(v, maxElems, maxTags, e, tag) == v
    ensures Knows(v, e) && |Row(v, e).adds| >= maxTags ==> Added(v, maxElems, maxTags, e, tag) == v
    ensures !Knows(v, e) || |Row(v, e).rems| >= maxTags ==> Removed(v, maxTags, e) == v
  {
    if !Knows(v, e) {
      var x: Entry<E, T> := Entry(e, [], []);
      FindMore(v, x, e, 0);
      assert x.(adds := x.adds + [tag]) == Entry(e, [tag], []);
      assert (v + [x])[|v| := Entry(e, [tag], [])] == v + [Entry(e, [tag], [])];
    } else {
      var i := Find(v, e, 0);
      assert v[i := v[i]] == v && v[i].(rems := v[i].rems) == v[i];
    }
  }

  /** Tables are merged row after row; a row without room is left out and the next ones are tried. */
  lemma {:induction false} MergedBehind<E, T>(a: View<E, T>, b: View<E, T>, c: View<E, T>, maxElems: nat, maxTags: nat)
    ensures Merged(a, b + c, maxElems, maxTags) == Merged(Merged(a, b, maxElems, maxTags), c, maxElems, maxTags)
    decreases |c|
  {
    if c == [] {
      assert b + c == b;
    } else {
      var n := |c| - 1;
      assert (b + c)[..|b + c| - 1] == b + c[..n];
      MergedBehind(a, b, c[..n], maxElems, maxTags);
    }
  }

  lemma OneRow<E, T>(a: View<E, T>, x: Entry<E, T>, maxElems: nat, maxTags: nat)
    ensures !Knows(a, x.elem) && |a| >= maxElems ==> Merged(a, [x], maxElems, maxTags) == a
    ensures !Knows(a, x.elem) && |a| < maxElems ==>
              Merged(a, [x], maxElems, maxTags)
              == a + [Entry(x.elem, AppendNew([], x.adds, maxTags), AppendNew([], x.rems, maxTags))]
  {
    assert [x][..0] == [];
    assert Merged(a, [x], maxElems, maxTags) == MergeOne(a, maxElems, maxTags, x);
    if !Knows(a, x.elem) && |a| < maxElems {
      var none: Entry<E, T> := Entry(x.elem, [], []);
      FindMore(a, none, x.elem, 0);
      var m := MergedEntry(none, x, maxTags);
      assert (a + [none])[|a| := m] == a + [m];
    }
  }

  /** Tags are taken over in order, each unless it is there already, until the row is full. */
  lemma {:induction false} AppendInOrder<T>(xs: seq<T>, ys: seq<T>, zs: seq<T>, maxTags: nat)
    ensures AppendNew(xs, ys + zs, maxTags) == AppendNew(AppendNew(xs, ys, maxTags), zs, maxTags)
    decreases |ys|
  {
    if ys == [] || |xs| >= maxTags {
      assert ys == [] ==> ys + zs == zs;
    } else {
      assert (ys + zs)[1..] == ys[1..] + zs;
      AppendInOrder(if ys[0] in xs then xs else xs + [ys[0]], ys[1..], zs, maxTags);
    }
  }

  lemma AppendOne<T>(xs: seq<T>, y: T, maxTags: nat)
    ensures AppendNew(xs, [y], maxTags) == if |xs| < maxTags && y !in xs then xs + [y] else xs
  {
  }

  // ----- tags appended without duplicates -----

  /** The tags of ys that xs lacks. */
  function Missing<T(==)>(xs: seq<T>, ys: seq<T>): set<T> {
    ToSet(ys) - ToSet(xs)
  }

  predicate Fits<T(==)>(xs: seq<T>, ys: seq<T>, maxTags: nat) {
    |xs| + |Missing(xs, ys)| <= maxTags
  }

  lemma MissingStep<T>(xs: seq<T>, ys: seq<T>)
    requires ys != []
    ensures ys[0] in xs ==> Missing(xs, ys) == Missing(xs, ys[1..])
    ensures ys[0] !in xs ==> Missing(xs + [ys[0]], ys[1..]) == Missing(xs, ys) - {ys[0]} && ys[0] in Missing(xs, ys)
    ensures ToSet(xs + [ys[0]]) == ToSet(xs) + {ys[0]} && ToSet(ys) == {ys[0]} + ToSet(ys[1..])
  {
  }

  lemma NothingMissing<T>(x: set<T>, y: set<T>)
    ensures x == x + y <==> y - x == {}
  {
    if x == x + y {
      assert y <= x;
    }
    if y - x == {} {
      forall t | t in y
        ensures t in x
      {
        assert t !in y - x;
      }
    }
  }

  lemma AppendStep<T>(xs: seq<T>, ys: seq<T>, maxTags: nat) returns (more: seq<T>)
    requires ys != [] && |xs| < maxTags
    ensures more == (if ys[0] in xs then xs else xs + [ys[0]]) && |more| <= maxTags
    ensures ToSet(xs) <= ToSet(more) && ToSet(more) + ToSet(ys[1..]) == ToSet(xs) + ToSet(ys)
    ensures Fits(more, ys[1..], maxTags) <==> Fits(xs, ys, maxTags)
  {
    more := if ys[0] in xs then xs else xs + [ys[0]];
    MissingStep(xs, ys);
    if ys[0] !in xs {
      assert |Missing(xs, ys)| == |Missing(more, ys[1..])| + 1;
    }
  }

  /** Appending gives the union of both tag sets exactly when the new tags fit. */
  lemma {:induction false} AppendUnion<T>(xs: seq<T>, ys: seq<T>, maxTags: nat)
    requires |xs| <= maxTags
    ensures ToSet(xs) <= ToSet(AppendNew(xs, ys, maxTags)) <= ToSet(xs) + ToSet(ys)
    ensures |AppendNew(xs, ys, maxTags)| <= maxTags
    ensures ToSet(AppendNew(xs, ys, maxTags)) == ToSet(xs) + ToSet(ys) <==> Fits(xs, ys, maxTags)
    decreases ys
  {
    if ys == [] {
      assert Missing(xs, ys) == {};
    } else if |xs| == maxTags {
      NothingMissing(ToSet(xs), ToSet(ys));
    } else {
      var more := AppendStep(xs, ys, maxTags);
      AppendUnion(more, ys[1..], maxTags);
    }
  }

  // ----- merge is the join -----

  lemma RowOfMergeOne<E, T>(v: View<E, T>, maxElems: nat, maxTags: nat, y: Entry<E, T>)
    requires Distinct(v) && (Knows(v, y.elem) || |v| < maxElems)
    ensures var m := MergeOne(v, maxElems, maxTags, y);
            && Distinct(m) && (forall e :: Knows(m, e) <==> Knows(v, e) || e == y.elem)
            && (forall e :: Row(m, e) == if e == y.elem then MergedEntry(Row(v, e), y, maxTags) else Row(v, e))
  {
    NewRow(v, maxElems, y.elem);
    var w := WithElem(v, maxElems, y.elem);
    var i := Find(w, y.elem, 0);
    assert Knows(w, y.elem);
    SetRow(w, i, MergedEntry(w[i], y, maxTags));
  }

  /** The last row apart from the rest. */
  lemma LastRow<E, T>(v: View<E, T>, front: View<E, T>, y: Entry<E, T>)
    requires v == front + [y] && Distinct(v)
    ensures Distinct(front) && !Knows(front, y.elem)
    ensures forall e :: Knows(v, e) <==> Knows(front, e) || e == y.elem
    ensures forall e :: Row(v, e) == if e == y.elem then y else Row(front, e)
  {
    var n := |front|;
    forall e
      ensures Find(v, e, 0) == if Find(front, e, 0) >= 0 then Find(front, e, 0) else if y.elem == e then n else -1
    {
      FindMore(front, y, e, 0);
    }
    assert v[n] == y;
    forall i | 0 <= i < n
      ensures Find(front, front[i].elem, 0) == i
    {
      assert v[i] == front[i];
    }
  }

  lemma {:induction false} SizeIsElems<E, T>(v: View<E, T>)
    requires Distinct(v)
    ensures |v| == |Elems(v)|
  {
    if v != [] {
      var front, y := v[..|v| - 1], v[|v| - 1];
      LastRow(v, front, y);
      SizeIsElems(front);
      KnowsElems(front, y.elem);
      assert Elems(v) == Elems(front) + {y.elem};
    }
  }

  lemma Room<E, T>(m: View<E, T>, e: E, all: set<E>, maxElems: nat)
    requires Distinct(m) && (forall f :: Knows(m, f) ==> f in all) && e in all && |all| <= maxElems
    ensures Knows(m, e) || |m| < maxElems
  {
    forall f | f in Elems(m)
      ensures f in all
    {
      KnowsElems(m, f);
    }
    SizeIsElems(m);
    KnowsElems(m, e);
    SubsetSize(Elems(m), all);
  }

  ghost predicate MergesRows<E(!new), T>(m: View<E, T>, a: View<E, T>, b: View<E, T>, maxTags: nat) {
    && Distinct(m)
    && (forall e :: Knows(m, e) <==> Knows(a, e) || Knows(b, e))
    && (forall e :: Row(m, e) == MergedEntry(Row(a, e), Row(b, e), maxTags))
  }

  lemma NothingToMerge<E, T>(x: Entry<E, T>, y: Entry<E, T>, maxTags: nat)
    requires y.adds == [] && y.rems == []
    ensures MergedEntry(x, y, maxTags) == x
  {
  }

  /** While the elements of both fit, merging merges every element's row with the other's. */
  lemma {:induction false} MergedRows<E(!new), T>(a: View<E, T>, b: View<E, T>, all: set<E>, maxElems: nat,
                                        maxTags: nat)
    requires Distinct(a) && Distinct(b) && |all| <= maxElems
    requires forall e :: Knows(a, e) || Knows(b, e) ==> e in all
    ensures MergesRows(Merged(a, b, maxElems, maxTags), a, b, maxTags)
    decreases |b|
  {
    if b == [] {
      forall e
        ensures Row(a, e) == MergedEntry(Row(a, e), Row(b, e), maxTags)
      {
        NothingToMerge(Row(a, e), Row(b, e), maxTags);
      }
    } else {
      var front, y := b[..|b| - 1], b[|b| - 1];
      LastRow(b, front, y);
      MergedRows(a, front, all, maxElems, maxTags);
      MergedStep(Merged(a, front, maxElems, maxTags), a, b, front, y, all, maxElems, maxTags);
    }
  }

  lemma MergedStep<E(!new), T>(m: View<E, T>, a: View<E, T>, b: View<E, T>, front: View<E, T>, y: Entry<E, T>,
                               all: set<E>, maxElems: nat, maxTags: nat)
    requires Distinct(a) && Distinct(b) && b == front + [y] && |all| <= maxElems
    requires forall e :: Knows(a, e) || Knows(b, e) ==> e in all
    requires MergesRows(m, a, front, maxTags)
    ensures MergesRows(MergeOne(m, maxElems, maxTags, y), a, b, maxTags)
  {
    LastRow(b, front, y);
    Room(m, y.elem, all, maxElems);
    RowOfMergeOne(m, maxElems, maxTags, y);
    NothingToMerge(Row(a, y.elem), Row(front, y.elem), maxTags);
  }

  ghost predicate RowsFit<E, T>(a: View<E, T>, b: View<E, T>, e: E, maxTags: nat) {
    Fits(Row(a, e).adds, Row(b, e).adds, maxTags) && Fits(Row(a, e).rems, Row(b, e).rems, maxTags)
  }

  ghost predicate Bounded<E, T>(v: View<E, T>, maxElems: nat, maxTags: nat) {
    && Distinct(v) && |v| <= maxElems
    && forall i :: 0 <= i < |v| ==> |v[i].adds| <= maxTags && |v[i].rems| <= maxTags
  }

  lemma BoundedRow<E, T>(v: View<E, T>, maxElems: nat, maxTags: nat, e: E)
    requires Bounded(v, maxElems, maxTags)
    ensures |Row(v, e).adds| <= maxTags && |Row(v, e).rems| <= maxTags
  {
  }

  lemma MergedTags<E, T>(x: Entry<E, T>, y: Entry<E, T>, maxTags: nat)
    requires |x.adds| <= maxTags && |x.rems| <= maxTags
    ensures TagsOf(MergedEntry(x, y, maxTags)) == Union(TagsOf(x), TagsOf(y))
       <==> Fits(x.adds, y.adds, maxTags) && Fits(x.rems, y.rems, maxTags)
  {
    AppendUnion(x.adds, y.adds, maxTags);
    AppendUnion(x.rems, y.rems, maxTags);
  }

  lemma MeaningAt<E, T>(v: View<E, T>, e: E)
    ensures e in Meaning(v) <==> Knows(v, e)
    ensures TagsIn(Meaning(v), e) == TagsOf(Row(v, e))
  {
    KnowsElems(v, e);
  }

  /** Merging tables is joining their meanings, exactly when every element's tags fit its row:
      while the elements fit, no add and no removal of either replica is lost. */
  lemma MergeJoins<E(!new), T>(a: View<E, T>, b: View<E, T>, maxElems: nat, maxTags: nat)
    requires Bounded(a, maxElems, maxTags) && Distinct(b) && |Elems(a) + Elems(b)| <= maxElems
    ensures Meaning(Merged(a, b, maxElems, maxTags)) == JoinStates(Meaning(a), Meaning(b))
       <==> forall e :: RowsFit(a, b, e, maxTags)
  {
    forall e | Knows(a, e) || Knows(b, e)
      ensures e in Elems(a) + Elems(b)
    {
      KnowsElems(a, e);
      KnowsElems(b, e);
    }
    MergedRows(a, b, Elems(a) + Elems(b), maxElems, maxTags);
    var m, j := Meaning(Merged(a, b, maxElems, maxTags)), JoinStates(Meaning(a), Meaning(b));
    forall e
      ensures e in m <==> e in j
      ensures TagsIn(m, e) == TagsIn(j, e) <==> RowsFit(a, b, e, maxTags)
    {
      MeaningAt(a, e);
      MeaningAt(b, e);
      MeaningAt(Merged(a, b, maxElems, maxTags), e);
      JoinTags(Meaning(a), Meaning(b), e);
      BoundedRow(a, maxElems, maxTags, e);
      MergedTags(Row(a, e), Row(b, e), maxTags);
    }
    if forall e :: RowsFit(a, b, e, maxTags) {
      SameState(m, j);
    }
  }

  // ----- replicas that exchange tables -----

  lemma MergedBounded<E(!new), T>(a: View<E, T>, b: View<E, T>, maxElems: nat, maxTags: nat)
    requires Bounded(a, maxElems, maxTags) && Distinct(b) && |Elems(a) + Elems(b)| <= maxElems
    ensures Bounded(Merged(a, b, maxElems, maxTags), maxElems, maxTags)
  {
    var m, all := Merged(a, b, maxElems, maxTags), Elems(a) + Elems(b);
    forall e
      ensures Knows(a, e) || Knows(b, e) <==> e in all
    {
      KnowsElems(a, e);
      KnowsElems(b, e);
    }
    MergedRows(a, b, all, maxElems, maxTags);
    forall e | e in Elems(m)
      ensures e in all
    {
      KnowsElems(m, e);
    }
    SizeIsElems(m);
    SubsetSize(Elems(m), all);
    forall i | 0 <= i < |m|
      ensures |m[i].adds| <= maxTags && |m[i].rems| <= maxTags
    {
      var e := m[i].elem;
      assert Row(m, e) == m[i];
      BoundedRow(a, maxElems, maxTags, e);
      AppendUnion(Row(a, e).adds, Row(b, e).adds, maxTags);
      AppendUnion(Row(a, e).rems, Row(b, e).rems, maxTags);
    }
  }

  /** The table a plan of merges ends with. */
  function FoldTables<E(==), T(==)>(p: Plan<View<E, T>>, maxElems: nat, maxTags: nat): View<E, T> {
    match p
    case State(v) => v
    case Merge(l, r) => Merged(FoldTables(l, maxElems, maxTags), FoldTables(r, maxElems, maxTags), maxElems, maxTags)
  }

  ghost predicate MergeFits<E(!new), T>(a: View<E, T>, b: View<E, T>, maxElems: nat, maxTags: nat) {
    |Elems(a) + Elems(b)| <= maxElems && forall e :: RowsFit(a, b, e, maxTags)
  }

  /** Nothing is lost in any of the plan's merges. */
  ghost predicate AllFit<E(!new), T>(p: Plan<View<E, T>>, maxElems: nat, maxTags: nat) {
    match p
    case State(v) => Bounded(v, maxElems, maxTags)
    case Merge(l, r) =>
      && AllFit(l, maxElems, maxTags) && AllFit(r, maxElems, maxTags)
      && MergeFits(FoldTables(l, maxElems, maxTags), FoldTables(r, maxElems, maxTags), maxElems, maxTags)
  }

  ghost function Meanings<E, T>(p: Plan<View<E, T>>): Plan<State<E, T>> {
    match p
    case State(v) => Plan.State(Meaning(v))
    case Merge(l, r) => Merge(Meanings(l), Meanings(r))
  }

  lemma {:induction false} TablesMean<E(!new), T(!new)>(p: Plan<View<E, T>>, maxElems: nat, maxTags: nat)
    requires AllFit(p, maxElems, maxTags)
    ensures Bounded(FoldTables(p, maxElems, maxTags), maxElems, maxTags)
    ensures Meaning(FoldTables(p, maxElems, maxTags)) == Fold(JoinStates<E, T>, Meanings(p))
  {
    if p.Merge? {
      TablesMean(p.left, maxElems, maxTags);
      TablesMean(p.right, maxElems, maxTags);
      var l, r := FoldTables(p.left, maxElems, maxTags), FoldTables(p.right, maxElems, maxTags);
      MergedBounded(l, r, maxElems, maxTags);
      MergeJoins(l, r, maxElems, maxTags);
    }
  }

  // ----- room for everything, judged beforehand -----

  /** A row of some of the tags that has room for the others. */
  predicate RowRoom<T(==)>(xs: seq<T>, tags: set<T>, maxTags: nat) {
    ToSet(xs) <= tags && |xs| + |tags - ToSet(xs)| <= maxTags
  }

  /** The elements and tags of v are among those of all, and v has room for all the others. */
  ghost predicate Roomy<E(!new), T>(v: View<E, T>, all: State<E, T>, maxElems: nat, maxTags: nat) {
    && Distinct(v) && |all| <= maxElems
    && (forall e :: Knows(v, e) ==> e in all)
    && forall e :: e in all ==>
         RowRoom(Row(v, e).adds, all[e].adds, maxTags) && RowRoom(Row(v, e).rems, all[e].rems, maxTags)
  }

  lemma RoomStep<T>(xs: seq<T>, ys: seq<T>, tags: set<T>, maxTags: nat) returns (more: seq<T>)
    requires ys != [] && ToSet(ys) <= tags && RowRoom(xs, tags, maxTags)
    ensures more == (if ys[0] in xs then xs else xs + [ys[0]]) && RowRoom(more, tags, maxTags) && ToSet(ys[1..]) <= tags
  {
    more := if ys[0] in xs then xs else xs + [ys[0]];
    assert ys[0] in ToSet(ys);
    if ys[0] !in xs {
      assert ToSet(more) == ToSet(xs) + {ys[0]};
      assert tags - ToSet(xs) == (tags - ToSet(more)) + {ys[0]};
    }
  }

  /** Appending tags that were counted in leaves as much room for the rest. */
  lemma {:induction false} AppendRoom<T>(xs: seq<T>, ys: seq<T>, tags: set<T>, maxTags: nat)
    requires ToSet(ys) <= tags && RowRoom(xs, tags, maxTags)
    ensures RowRoom(AppendNew(xs, ys, maxTags), tags, maxTags)
    decreases ys
  {
    if ys != [] && |xs| < maxTags {
      var more := RoomStep(xs, ys, tags, maxTags);
      AppendRoom(more, ys[1..], tags, maxTags);
    }
  }

  lemma RoomFits<T>(xs: seq<T>, ys: seq<T>, tags: set<T>, maxTags: nat)
    requires ToSet(ys) <= tags && RowRoom(xs, tags, maxTags)
    ensures Fits(xs, ys, maxTags)
  {
    SubsetSize(Missing(xs, ys), tags - ToSet(xs));
  }

  lemma RoomyBounded<E(!new), T>(v: View<E, T>, all: State<E, T>, maxElems: nat, maxTags: nat)
    requires Roomy(v, all, maxElems, maxTags)
    ensures Elems(v) <= all.Keys && Bounded(v, maxElems, maxTags)
  {
    forall e | e in Elems(v)
      ensures e in all
    {
      KnowsElems(v, e);
    }
    SizeIsElems(v);
    SubsetSize(Elems(v), all.Keys);
    forall i | 0 <= i < |v|
      ensures |v[i].adds| <= maxTags && |v[i].rems| <= maxTags
    {
      assert Row(v, v[i].elem) == v[i] && Knows(v, v[i].elem);
    }
  }

  lemma RoomyRow<E(!new), T>(a: View<E, T>, b: View<E, T>, all: State<E, T>, maxElems: nat, maxTags: nat, e: E)
    requires Roomy(a, all, maxElems, maxTags) && Roomy(b, all, maxElems, maxTags)
    ensures RowsFit(a, b, e, maxTags)
    ensures e in all ==> var m := MergedEntry(Row(a, e), Row(b, e), maxTags);
                         RowRoom(m.adds, all[e].adds, maxTags) && RowRoom(m.rems, all[e].rems, maxTags)
  {
    if e in all {
      RoomFits(Row(a, e).adds, Row(b, e).adds, all[e].adds, maxTags);
      RoomFits(Row(a, e).rems, Row(b, e).rems, all[e].rems, maxTags);
      AppendRoom(Row(a, e).adds, Row(b, e).adds, all[e].adds, maxTags);
      AppendRoom(Row(a, e).rems, Row(b, e).rems, all[e].rems, maxTags);
    }
  }

  lemma RoomyMerge<E(!new), T>(a: View<E, T>, b: View<E, T>, all: State<E, T>, maxElems: nat, maxTags: nat)
    requires Roomy(a, all, maxElems, maxTags) && Roomy(b, all, maxElems, maxTags)
    ensures MergeFits(a, b, maxElems, maxTags) && Roomy(Merged(a, b, maxElems, maxTags), all, maxElems, maxTags)
  {
    RoomyBounded(a, all, maxElems, maxTags);
    RoomyBounded(b, all, maxElems, maxTags);
    SubsetSize(Elems(a) + Elems(b), all.Keys);
    MergedRows(a, b, all.Keys, maxElems, maxTags);
    forall e
      ensures RowsFit(a, b, e, maxTags)
      ensures e in all ==> var m := Row(Merged(a, b, maxElems, maxTags), e);
                           RowRoom(m.adds, all[e].adds, maxTags) && RowRoom(m.rems, all[e].rems, maxTags)
    {
      RoomyRow(a, b, all, maxElems, maxTags, e);
    }
  }

  /** If all elements together fit the table, and every row has room for the tags of all replicas that
      it lacks, nothing is ever lost, whatever the order, grouping and repetitions of the merges. */
  lemma {:induction false} RoomSuffices<E(!new), T(!new)>(p: Plan<View<E, T>>, all: State<E, T>, maxElems: nat,
                                          maxTags: nat)
    requires forall v :: v in States(p) ==> Roomy(v, all, maxElems, maxTags)
    ensures AllFit(p, maxElems, maxTags) && Roomy(FoldTables(p, maxElems, maxTags), all, maxElems, maxTags)
  {
    match p
    case State(v) =>
      assert v in States(p);
      RoomyBounded(v, all, maxElems, maxTags);
    case Merge(l, r) =>
      RoomSuffices(l, all, maxElems, maxTags);
      RoomSuffices(r, all, maxElems, maxTags);
      RoomyMerge(FoldTables(l, maxElems, maxTags), FoldTables(r, maxElems, maxTags), all, maxElems, maxTags);
  }

  /** Convergence of the tables themselves: two plans that merge tables of the same meanings, in any
      order, grouping and multiplicity, end with the same elements, if every table has room for all. */
  lemma TablesConverge<E(!new), T(!new)>(p: Plan<View<E, T>>, q: Plan<View<E, T>>, all: State<E, T>,
                                         maxElems: nat, maxTags: nat, e: E)
    requires forall v :: v in States(p) || v in States(q) ==> Roomy(v, all, maxElems, maxTags)
    requires States(Meanings(p)) == States(Meanings(q))
    ensures Meaning(FoldTables(p, maxElems, maxTags)) == Meaning(FoldTables(q, maxElems, maxTags))
    ensures Contains(FoldTables(p, maxElems, maxTags), e) <==> Contains(FoldTables(q, maxElems, maxTags), e)
  {
    RoomSuffices(p, all, maxElems, maxTags);
    RoomSuffices(q, all, maxElems, maxTags);
    TablesMean(p, maxElems, maxTags);
    TablesMean(q, maxElems, maxTags);
    SetsConverge(Meanings(p), Meanings(q));
    MeaningAt(FoldTables(p, maxElems, maxTags), e);
    MeaningAt(FoldTables(q, maxElems, maxTags), e);
  }

  // ----- adding and removing -----

  function AddedEntry<E, T>(x: Entry<E, T>, tag: T, maxTags: nat): Entry<E, T> {
    if |x.adds| >= maxTags then x else x.(adds := x.adds + [tag])
  }

  function RemovedEntry<E, T>(x: Entry<E, T>, maxTags: nat): Entry<E, T> {
    x.(rems := RemovedTags(x.adds, x.rems, maxTags))
  }

  lemma AddedRow<E, T>(v: View<E, T>, maxElems: nat, maxTags: nat, e: E, tag: T)
    requires Distinct(v) && (Knows(v, e) || |v| < maxElems)
    ensures var w := Added(v, maxElems, maxTags, e, tag);
            && Distinct(w) && (forall f :: Knows(w, f) <==> Knows(v, f) || f == e)
            && (forall f :: Row(w, f) == if f == e then AddedEntry(Row(v, f), tag, maxTags) else Row(v, f))
  {
    NewRow(v, maxElems, e);
    var w := WithElem(v, maxElems, e);
    assert Knows(w, e);
    var i := Find(w, e, 0);
    SetRow(w, i, AddedEntry(w[i], tag, maxTags));
    assert w[i := w[i]] == w;
  }

  lemma RemovedRow<E, T>(v: View<E, T>, maxTags: nat, e: E)
    requires Distinct(v)
    ensures var w := Removed(v, maxTags, e);
            && Distinct(w) && (forall f :: Knows(w, f) <==> Knows(v, f))
            && (forall f :: Row(w, f) == if f == e then RemovedEntry(Row(v, f), maxTags) else Row(v, f))
  {
    var i := Find(v, e, 0);
    if i >= 0 {
      SetRow(v, i, RemovedEntry(v[i], maxTags));
    } else {
      assert RemovedEntry(Row(v, e), maxTags) == Row(v, e);
    }
  }

  lemma ToSetAppend<T>(xs: seq<T>, ys: seq<T>)
    ensures ToSet(xs + ys) == ToSet(xs) + ToSet(ys)
  {
  }

  /** An add that fits puts its tag into the element's add tags and changes nothing else. */
  lemma AddMeans<E, T>(v: View<E, T>, maxElems: nat, maxTags: nat, e: E, tag: T)
    requires Distinct(v) && (Knows(v, e) || |v| < maxElems) && |Row(v, e).adds| < maxTags
    ensures var was := TagsIn(Meaning(v), e);
            Meaning(Added(v, maxElems, maxTags, e, tag)) == Meaning(v)[e := Tags(was.adds + {tag}, was.rems)]
  {
    AddedRow(v, maxElems, maxTags, e, tag);
    ToSetAppend(Row(v, e).adds, [tag]);
    var was := TagsIn(Meaning(v), e);
    var m, n := Meaning(Added(v, maxElems, maxTags, e, tag)), Meaning(v)[e := Tags(was.adds + {tag}, was.rems)];
    forall f
      ensures f in m <==> f in n
      ensures TagsIn(m, f) == TagsIn(n, f)
    {
      MeaningAt(v, f);
      MeaningAt(Added(v, maxElems, maxTags, e, tag), f);
    }
    SameState(m, n);
  }

  /** A removal that fits removes every add tag the replica has, so the element is gone. */
  lemma RemoveMeans<E, T>(v: View<E, T>, maxTags: nat, e: E)
    requires Distinct(v) && Knows(v, e) && |Row(v, e).rems| + |Row(v, e).adds| <= maxTags
    ensures var was := TagsIn(Meaning(v), e);
            Meaning(Removed(v, maxTags, e)) == Meaning(v)[e := Tags(was.adds, was.rems + was.adds)]
    ensures !Contains(Removed(v, maxTags, e), e)
  {
    RemovedRow(v, maxTags, e);
    var x := Row(v, e);
    assert RemovedTags(x.adds, x.rems, maxTags) == x.rems + x.adds;
    ToSetAppend(x.rems, x.adds);
    var was := TagsIn(Meaning(v), e);
    var m, n := Meaning(Removed(v, maxTags, e)), Meaning(v)[e := Tags(was.adds, was.rems + was.adds)];
    MeaningAt(v, e);
    forall f
      ensures f in m <==> f in n
      ensures TagsIn(m, f) == TagsIn(n, f)
    {
      MeaningAt(v, f);
      MeaningAt(Removed(v, maxTags, e), f);
    }
    SameState(m, n);
  }

  // ----- concurrent adds win -----

  lemma KeepsTag<T>(xs: seq<T>, ys: seq<T>, maxTags: nat, tag: T)
    requires |xs| <= maxTags && (tag in xs || (tag in ys && Fits(xs, ys, maxTags)))
    ensures tag in AppendNew(xs, ys, maxTags)
  {
    AppendUnion(xs, ys, maxTags);
    assert tag in ToSet(xs) + ToSet(ys);
    if tag in xs {
      assert tag in ToSet(xs);
    }
    assert tag in ToSet(AppendNew(xs, ys, maxTags));
  }

  /** A tag that neither replica has removed keeps its element in the merged set. */
  lemma AddSurvives<E(!new), T>(a: View<E, T>, b: View<E, T>, all: set<E>, maxElems: nat, maxTags: nat, e: E, tag: T)
    requires Bounded(a, maxElems, maxTags) && Distinct(b) && |all| <= maxElems
    requires forall f :: Knows(a, f) || Knows(b, f) ==> f in all
    requires Knows(a, e) || Knows(b, e)
    requires tag in Row(a, e).adds || (tag in Row(b, e).adds && Fits(Row(a, e).adds, Row(b, e).adds, maxTags))
    requires tag !in Row(a, e).rems && tag !in Row(b, e).rems
    ensures Contains(Merged(a, b, maxElems, maxTags), e)
  {
    MergedRows(a, b, all, maxElems, maxTags);
    BoundedRow(a, maxElems, maxTags, e);
    var m := MergedEntry(Row(a, e), Row(b, e), maxTags);
    KeepsTag(Row(a, e).adds, Row(b, e).adds, maxTags, tag);
    AppendUnion(Row(a, e).rems, Row(b, e).rems, maxTags);
    assert tag in TagsOf(m).adds && tag !in TagsOf(m).rems;
  }

  /** Two replicas start from the same set; one adds e with a new tag while the other removes e.
      Merging them either way round, e is in the set. */
  lemma AddWins<E(!new), T>(s: View<E, T>, maxElems: nat, maxTags: nat, e: E, tag: T)
    requires Bounded(s, maxElems, maxTags) && Knows(s, e) && |Row(s, e).adds| < maxTags
    requires tag !in Row(s, e).adds && tag !in Row(s, e).rems
    ensures var a, b := Added(s, maxElems, maxTags, e, tag), Removed(s, maxTags, e);
            Contains(Merged(a, b, maxElems, maxTags), e) && Contains(Merged(b, a, maxElems, maxTags), e)
  {
    var a, b := Added(s, maxElems, maxTags, e, tag), Removed(s, maxTags, e);
    AddedRow(s, maxElems, maxTags, e, tag);
    RemovedRow(s, maxTags, e);
    forall f
      ensures Knows(s, f) <==> f in Elems(s)
    {
      KnowsElems(s, f);
    }
    SizeIsElems(s);
    var x := Row(s, e);
    assert tag in Row(a, e).adds && tag !in Row(b, e).rems;
    assert Missing(x.adds, x.adds + [tag]) == {tag};
    AddSurvives(a, b, Elems(s), maxElems, maxTags, e, tag);
    AddSurvives(b, a, Elems(s), maxElems, maxTags, e, tag);
  }

  // ----- add and remove, over and over -----

  /** One element added with each tag in turn and removed after every add. */
  function Rounds<E(==), T>(e: E, tags: seq<T>, maxElems: nat, maxTags: nat): View<E, T> {
    if tags == [] then []
    else
      var k := |tags| - 1;
      Removed(Added(Rounds(e, tags[..k], maxElems, maxTags), maxElems, maxTags, e, tags[k]), maxTags, e)
  }

  function Triangle(k: nat): nat {
    k * (k + 1) / 2
  }

  predicate AllNew<T(==)>(tags: seq<T>) {
    forall i, j :: 0 <= i < j < |tags| ==> tags[i] != tags[j]
  }

  lemma TriangleStep(k: nat)
    ensures Triangle(k + 1) == Triangle(k) + k + 1 && Triangle(k) >= k
    ensures k >= 2 ==> Triangle(k) >= k + 1
  {
    assert (k + 1) * (k + 2) == k * (k + 1) + 2 * (k + 1);
    assert k >= 1 ==> k * (k + 1) >= 2 * k;
    assert k >= 2 ==> k * (k + 1) >= 2 * (k + 1);
  }

  lemma RoundRow<E, T>(e: E, tags: seq<T>, front: seq<T>, tag: T, maxElems: nat, maxTags: nat)
    requires tags == front + [tag] && maxElems >= 1
    requires var v := Rounds(e, front, maxElems, maxTags); Distinct(v) && (Knows(v, e) || v == [])
    ensures var v := Rounds(e, tags, maxElems, maxTags);
            && Distinct(v) && Knows(v, e)
            && Row(v, e) == RemovedEntry(AddedEntry(Row(Rounds(e, front, maxElems, maxTags), e), tag, maxTags), maxTags)
  {
    var k := |front|;
    assert tags[..k] == front && tags[k] == tag;
    var v := Rounds(e, front, maxElems, maxTags);
    AddedRow(v, maxElems, maxTags, e, tag);
    RemovedRow(Added(v, maxElems, maxTags, e, tag), maxTags, e);
  }

  /** A round whose tombstones fit. */
  lemma FitStep<E, T>(x: Entry<E, T>, front: seq<T>, tag: T, n: nat, maxTags: nat)
    requires x.adds == front && |x.rems| == n && ToSet(x.rems) == ToSet(front) && n + |front| + 1 <= maxTags
    ensures var y := RemovedEntry(AddedEntry(x, tag, maxTags), maxTags);
            && y.adds == front + [tag] && |y.rems| == n + |front| + 1 && ToSet(y.rems) == ToSet(front + [tag])
  {
    var y := AddedEntry(x, tag, maxTags);
    assert RemovedTags(y.adds, y.rems, maxTags) == x.rems + (front + [tag]);
    ToSetAppend(x.rems, front + [tag]);
    ToSetAppend(front, [tag]);
  }

  ghost predicate AllRemoved<E, T>(v: View<E, T>, e: E, tags: seq<T>, tombstones: nat) {
    && Distinct(v) && (Knows(v, e) || v == [])
    && Row(v, e).adds == tags && |Row(v, e).rems| == tombstones && ToSet(Row(v, e).rems) == ToSet(tags)
  }

  /** While the tombstones fit, k rounds leave k add tags and k(k+1)/2 tombstones for them. */
  lemma {:induction false} RoundsFit<E, T>(e: E, tags: seq<T>, maxElems: nat, maxTags: nat) returns (n: nat)
    requires maxElems >= 1 && Triangle(|tags|) <= maxTags
    ensures n == Triangle(|tags|)
    ensures AllRemoved(Rounds(e, tags, maxElems, maxTags), e, tags, n)
  {
    if tags == [] {
      n := 0;
    } else {
      var k := |tags| - 1;
      var front, tag := tags[..k], tags[k];
      TriangleStep(k);
      assert tags == front + [tag];
      n := RoundsFit(e, front, maxElems, maxTags);
      RoundRow(e, tags, front, tag, maxElems, maxTags);
      var before := Row(Rounds(e, front, maxElems, maxTags), e);
      FitStep(before, front, tag, n, maxTags);
      n := n + k + 1;
    }
  }

  /** A full row of tombstones and a live element: from here on no removal ever takes effect. */
  predicate Stuck<E, T(==)>(x: Entry<E, T>, maxTags: nat) {
    |x.rems| == maxTags && Live(TagsOf(x))
  }

  lemma {:induction false} AppendKeeps<T>(xs: seq<T>, ys: seq<T>, maxTags: nat)
    ensures ToSet(xs) <= ToSet(AppendNew(xs, ys, maxTags))
    decreases ys
  {
    if ys != [] && |xs| < maxTags {
      var more := if ys[0] in xs then xs else xs + [ys[0]];
      assert ToSet(xs) <= ToSet(more);
      AppendKeeps(more, ys[1..], maxTags);
    }
  }

  lemma StuckRow<E, T>(x: Entry<E, T>, y: Entry<E, T>, tag: T, maxTags: nat)
    requires Stuck(x, maxTags)
    ensures Stuck(RemovedEntry(x, maxTags), maxTags)
    ensures Stuck(AddedEntry(x, tag, maxTags), maxTags)
    ensures Stuck(MergedEntry(x, y, maxTags), maxTags)
  {
    ToSetAppend(x.adds, [tag]);
    AppendKeeps(x.adds, y.adds, maxTags);
  }

  /** What a replica can do to its set. */
  datatype Change<E, T> = Add(elem: E, tag: T) | Remove(gone: E) | MergeWith(other: View<E, T>)

  function Changed<E(==), T(==)>(v: View<E, T>, c: Change<E, T>, maxElems: nat, maxTags: nat): View<E, T> {
    match c
    case Add(e, tag) => Added(v, maxElems, maxTags, e, tag)
    case Remove(e) => Removed(v, maxTags, e)
    case MergeWith(b) => Merged(v, b, maxElems, maxTags)
  }

  function ChangedBy<E(==), T(==)>(v: View<E, T>, cs: seq<Change<E, T>>, maxElems: nat, maxTags: nat): View<E, T>
    decreases |cs|
  {
    if cs == [] then v else ChangedBy(Changed(v, cs[0], maxElems, maxTags), cs[1..], maxElems, maxTags)
  }

  ghost predicate StuckIn<E, T>(v: View<E, T>, e: E, maxTags: nat) {
    Distinct(v) && Knows(v, e) && Stuck(Row(v, e), maxTags)
  }

  lemma AddKeepsStuck<E, T>(v: View<E, T>, maxElems: nat, maxTags: nat, e: E, f: E, tag: T)
    requires StuckIn(v, e, maxTags)
    ensures StuckIn(Added(v, maxElems, maxTags, f, tag), e, maxTags)
  {
    if Knows(v, f) || |v| < maxElems {
      AddedRow(v, maxElems, maxTags, f, tag);
    }
    StuckRow(Row(v, e), Row(v, e), tag, maxTags);
  }

  lemma MergeOneKeepsStuck<E, T>(v: View<E, T>, maxElems: nat, maxTags: nat, e: E, y: Entry<E, T>)
    requires StuckIn(v, e, maxTags)
    ensures StuckIn(MergeOne(v, maxElems, maxTags, y), e, maxTags)
  {
    if Knows(v, y.elem) || |v| < maxElems {
      RowOfMergeOne(v, maxElems, maxTags, y);
    }
    if tag :| tag in Row(v, e).adds {
      StuckRow(Row(v, e), y, tag, maxTags);
    }
  }

  lemma {:induction false} MergeKeepsStuck<E, T>(v: View<E, T>, b: View<E, T>, maxElems: nat, maxTags: nat, e: E)
    requires StuckIn(v, e, maxTags)
    ensures StuckIn(Merged(v, b, maxElems, maxTags), e, maxTags)
    decreases |b|
  {
    if b != [] {
      MergeKeepsStuck(v, b[..|b| - 1], maxElems, maxTags, e);
      MergeOneKeepsStuck(Merged(v, b[..|b| - 1], maxElems, maxTags), maxElems, maxTags, e, b[|b| - 1]);
    }
  }

  lemma RemoveKeepsStuck<E, T>(v: View<E, T>, maxTags: nat, e: E, f: E)
    requires StuckIn(v, e, maxTags)
    ensures StuckIn(Removed(v, maxTags, f), e, maxTags)
  {
    RemovedRow(v, maxTags, f);
    if tag :| tag in Row(v, e).adds {
      StuckRow(Row(v, e), Row(v, e), tag, maxTags);
    }
  }

  /** Once an element is live with a full row of tombstones, it is in the set for ever: whatever is
      added, removed and merged in afterwards. */
  lemma {:induction false} StuckStays<E, T>(v: View<E, T>, cs: seq<Change<E, T>>, maxElems: nat, maxTags: nat, e: E)
    requires StuckIn(v, e, maxTags)
    ensures StuckIn(ChangedBy(v, cs, maxElems, maxTags), e, maxTags) && Contains(ChangedBy(v, cs, maxElems, maxTags), e)
    decreases |cs|
  {
    if cs != [] {
      match cs[0] {
        case Add(f, tag) => AddKeepsStuck(v, maxElems, maxTags, e, f, tag);
        case Remove(f) => RemoveKeepsStuck(v, maxTags, e, f);
        case MergeWith(b) => MergeKeepsStuck(v, b, maxElems, maxTags, e);
      }
      StuckStays(Changed(v, cs[0], maxElems, maxTags), cs[1..], maxElems, maxTags, e);
    }
  }

  /** The round in which the tombstones stop fitting leaves its own add unremoved. */
  lemma Overflow<E, T>(x: Entry<E, T>, front: seq<T>, tag: T, maxTags: nat)
    requires x.adds == front && |x.rems| == Triangle(|front|) <= maxTags < Triangle(|front| + 1)
    requires ToSet(x.rems) == ToSet(front) && tag !in front && maxTags >= 2
    ensures Stuck(RemovedEntry(AddedEntry(x, tag, maxTags), maxTags), maxTags)
  {
    TriangleStep(|front|);
    var y := AddedEntry(x, tag, maxTags);
    assert y.adds == front + [tag];
    var kept := y.adds[..maxTags - |x.rems|];
    assert kept <= front;
    var z := RemovedEntry(y, maxTags);
    assert z.rems == x.rems + kept;
    ToSetAppend(x.rems, kept);
    assert tag in TagsOf(z).adds;
    assert tag !in TagsOf(z).rems by {
      assert tag !in ToSet(x.rems) && tag !in kept;
    }
  }

  lemma {:induction false} RoundsStuck<E, T>(e: E, tags: seq<T>, maxElems: nat, maxTags: nat)
    requires maxElems >= 1 && maxTags >= 2 && AllNew(tags) && Triangle(|tags|) > maxTags
    ensures var v := Rounds(e, tags, maxElems, maxTags); Distinct(v) && Knows(v, e) && Stuck(Row(v, e), maxTags)
  {
    var k := |tags| - 1;
    var front, tag := tags[..k], tags[k];
    if Triangle(k) <= maxTags {
      var n := RoundsFit(e, front, maxElems, maxTags);
      RoundRow(e, tags, front, tag, maxElems, maxTags);
      Overflow(Row(Rounds(e, front, maxElems, maxTags), e), front, tag, maxTags);
    } else {
      RoundsStuck(e, front, maxElems, maxTags);
      RoundRow(e, tags, front, tag, maxElems, maxTags);
      var x := Row(Rounds(e, front, maxElems, maxTags), e);
      StuckRow(x, x, tag, maxTags);
      StuckRow(AddedEntry(x, tag, maxTags), x, tag, maxTags);
    }
  }

  lemma {:induction false} RoundsSmall<E, T>(e: E, tags: seq<T>, maxElems: nat, maxTags: nat)
    requires maxElems >= 1 && maxTags < 2
    ensures var v := Rounds(e, tags, maxElems, maxTags);
            Distinct(v) && (Knows(v, e) || v == []) && Row(v, e).adds == Row(v, e).rems && |Row(v, e).adds| <= maxTags
    ensures tags != [] ==> |Row(Rounds(e, tags, maxElems, maxTags), e).adds| == maxTags
  {
    if tags != [] {
      var k := |tags| - 1;
      RoundsSmall(e, tags[..k], maxElems, maxTags);
      RoundRow(e, tags, tags[..k], tags[k], maxElems, maxTags);
    }
  }

  /** After k rounds the element is gone if and only if the k(k+1)/2 tombstones fit their row;
      rows of fewer than two tags are the exception, where it is always gone. */
  lemma RoundsGone<E, T>(e: E, tags: seq<T>, maxElems: nat, maxTags: nat)
    requires maxElems >= 1 && AllNew(tags)
    ensures !Contains(Rounds(e, tags, maxElems, maxTags), e) <==> Triangle(|tags|) <= maxTags || maxTags < 2
  {
    if Triangle(|tags|) <= maxTags {
      var n := RoundsFit(e, tags, maxElems, maxTags);
    } else if maxTags < 2 {
      RoundsSmall(e, tags, maxElems, maxTags);
    } else {
      RoundsStuck(e, tags, maxElems, maxTags);
    }
  }
}
