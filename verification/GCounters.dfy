/** The grow-only counter: sixteen replica slots that refine a map joined by pointwise maximum. */
module GCounters {
  import opened Collections
  import opened Semilattice

  const REPLICAS := 16

  // ----- the counter as a map from replicas to counts -----

  /** Counts by replica id; ids are only ever compared for equality. */
  type Counts<!K> = map<K, nat>

  function At<K>(m: Counts<K>, rep: K): nat {
    if rep in m then m[rep] else 0
  }

  function Max(x: nat, y: nat): nat {
    if x < y then y else x
  }

  function JoinCounts<K>(a: Counts<K>, b: Counts<K>): (m: Counts<K>) {
    map rep | rep in a.Keys + b.Keys :: Max(At(a, rep), At(b, rep))
  }

  lemma JoinCommutes<K>(a: Counts<K>, b: Counts<K>)
    ensures JoinCounts(a, b) == JoinCounts(b, a)
  {
    assert JoinCounts(a, b).Keys == JoinCounts(b, a).Keys;
  }

  lemma JoinAssociates<K>(a: Counts<K>, b: Counts<K>, c: Counts<K>)
    ensures JoinCounts(a, JoinCounts(b, c)) == JoinCounts(JoinCounts(a, b), c)
  {
    var l, r := JoinCounts(a, JoinCounts(b, c)), JoinCounts(JoinCounts(a, b), c);
    assert l.Keys == r.Keys;
    forall rep | rep in l
      ensures l[rep] == r[rep]
    {
      assert At(JoinCounts(b, c), rep) == Max(At(b, rep), At(c, rep));
      assert At(JoinCounts(a, b), rep) == Max(At(a, rep), At(b, rep));
    }
  }

  lemma CountsJoin<K(!new)>()
    ensures Joins(JoinCounts<K>, m => true)
  {
    forall a: Counts<K>
      ensures JoinCounts(a, a) == a
    {
      assert JoinCounts(a, a).Keys == a.Keys;
    }
    forall a: Counts<K>, b: Counts<K>
      ensures JoinCounts(a, b) == JoinCounts(b, a)
    {
      JoinCommutes(a, b);
    }
    forall a: Counts<K>, b: Counts<K>, c: Counts<K>
      ensures JoinCounts(a, JoinCounts(b, c)) == JoinCounts(JoinCounts(a, b), c)
    {
      JoinAssociates(a, b, c);
    }
  }

  /** Replicas that merge the same counter states, however often and in whatever order, agree. */
  lemma CountersConverge<K(!new)>(p: Plan<Counts<K>>, q: Plan<Counts<K>>)
    requires States(p) == States(q)
    ensures Fold(JoinCounts<K>, p) == Fold(JoinCounts<K>, q)
  {
    CountsJoin<K>();
    Converge(JoinCounts<K>, m => true, p, q);
  }

  /** The counter's value: all counts together, in any order. */
  ghost function Value<K>(m: Counts<K>): nat
    decreases |m|
  {
    if m == map[] then 0
    else
      var rep :| rep in m;
      assert (m - {rep}).Keys == m.Keys - {rep};
      m[rep] + Value(m - {rep})
  }

  lemma {:induction false} ValueOf<K>(m: Counts<K>, rep: K)
    requires rep in m
    ensures Value(m) == m[rep] + Value(m - {rep})
    decreases |m|
  {
    var first :| first in m && Value(m) == m[first] + Value(m - {first});
    assert (m - {first}).Keys == m.Keys - {first};
    assert (m - {rep}).Keys == m.Keys - {rep};
    if first != rep {
      ValueOf(m - {first}, rep);
      ValueOf(m - {rep}, first);
      assert m - {first} - {rep} == m - {rep} - {first};
    }
  }

  /** A counter nobody has counted on is worth nothing, and one replica's alone what it counted. */
  lemma NothingCounted<K>(rep: K, n: nat)
    ensures var none: Counts<K> := map[]; Value(none) == 0
    ensures Value(map[rep := n]) == n
  {
    ValueOf(map[rep := n], rep);
    assert map[rep := n] - {rep} == map[];
  }

  lemma ValueSet<K>(m: Counts<K>, rep: K, n: nat)
    ensures Value(m[rep := n]) + At(m, rep) == Value(m) + n
  {
    ValueOf(m[rep := n], rep);
    assert m[rep := n] - {rep} == m - {rep};
    if rep in m {
      ValueOf(m, rep);
    } else {
      assert m - {rep} == m;
    }
  }

  /** No merge ever loses a count: the merged value is at least each input's. */
  lemma {:induction false} JoinGrows<K>(a: Counts<K>, b: Counts<K>)
    ensures Value(JoinCounts(a, b)) >= Value(a)
  {
    Dominated(a, JoinCounts(a, b));
  }

  lemma {:induction false} Dominated<K>(a: Counts<K>, b: Counts<K>)
    requires forall rep :: rep in a ==> rep in b && a[rep] <= b[rep]
    ensures Value(a) <= Value(b)
    decreases |a|
  {
    if a != map[] {
      var rep :| rep in a;
      ValueOf(a, rep);
      ValueOf(b, rep);
      assert (a - {rep}).Keys == a.Keys - {rep};
      Dominated(a - {rep}, b - {rep});
    }
  }

  lemma BothJoined<K>(s: Counts<K>, r: K, q: K, d: nat, e: nat)
    requires r != q
    ensures JoinCounts(s[r := At(s, r) + d], s[q := At(s, q) + e]) == s[r := At(s, r) + d][q := At(s, q) + e]
  {
    var a, b := s[r := At(s, r) + d], s[q := At(s, q) + e];
    var both := a[q := At(a, q) + e];
    assert JoinCounts(a, b).Keys == both.Keys;
    forall rep | rep in both
      ensures JoinCounts(a, b)[rep] == both[rep]
    {
    }
  }

  /** Two replicas that count on from the same state lose nothing: the merged value has both
      increments. */
  lemma BothIncrementsCount<K>(s: Counts<K>, r: K, q: K, d: nat, e: nat)
    requires r != q
    ensures Value(JoinCounts(s[r := At(s, r) + d], s[q := At(s, q) + e])) == Value(s) + d + e
  {
    var a := s[r := At(s, r) + d];
    BothJoined(s, r, q, d, e);
    ValueSet(s, r, At(s, r) + d);
    ValueSet(a, q, At(a, q) + e);
  }

  /** In a plan over at most as many replicas as there are slots, every merge fits its slots. */
  ghost predicate EveryMergeFits<K>(p: Plan<Counts<K>>) {
    match p
    case State(_) => true
    case Merge(l, r) =>
      && EveryMergeFits(l) && EveryMergeFits(r)
      && |Fold(JoinCounts<K>, l).Keys + Fold(JoinCounts<K>, r).Keys| <= REPLICAS
  }

  lemma OneMergeFits<K>(a: Counts<K>, b: Counts<K>)
    ensures EveryMergeFits(Merge(State(a), State(b))) <==> |a.Keys + b.Keys| <= 16
  {
  }

  lemma {:induction false} SlotsSuffice<K>(p: Plan<Counts<K>>, all: set<K>)
    requires |all| <= 16 && forall s :: s in States(p) ==> s.Keys <= all
    ensures EveryMergeFits(p) && Fold(JoinCounts<K>, p).Keys <= all
  {
    if p.Merge? {
      SlotsSuffice(p.left, all);
      SlotsSuffice(p.right, all);
      SubsetSize(Fold(JoinCounts<K>, p.left).Keys + Fold(JoinCounts<K>, p.right).Keys, all);
    }
  }

  // ----- the slots -----

  datatype Entry<K> = Unused | Slot(rep: K, val: nat)

  predicate Holds<K(==)>(e: Entry<K>, rep: K) {
    e.Slot? && e.rep == rep
  }

  /** First slot from i on that is used by rep, or -1. */
  function Find<K(==)>(es: seq<Entry<K>>, rep: K, i: nat): (r: int)
    requires i <= |es|
    ensures r == -1 || (i <= r < |es| && Holds(es[r], rep))
    decreases |es| - i
  {
    if i == |es| then -1 else if Holds(es[i], rep) then i else Find(es, rep, i + 1)
  }

  /** First unused slot from i on, or -1. */
  function Free<K>(es: seq<Entry<K>>, i: nat): (r: int)
    requires i <= |es|
    ensures r == -1 || (i <= r < |es| && !es[r].Slot?)
    decreases |es| - i
  {
    if i == |es| then -1 else if !es[i].Slot? then i else Free(es, i + 1)
  }

  /** Used slots from i on. */
  function Used<K>(es: seq<Entry<K>>, i: nat): (n: nat)
    requires i <= |es|
    ensures n <= |es| - i
    decreases |es| - i
  {
    if i == |es| then 0 else (if es[i].Slot? then 1 else 0) + Used(es, i + 1)
  }

  lemma {:induction false} FullIff<K>(es: seq<Entry<K>>, i: nat)
    requires i <= |es|
    ensures Used(es, i) == |es| - i <==> Free(es, i) == -1
    decreases |es| - i
  {
    if i < |es| {
      FullIff(es, i + 1);
    }
  }

  /** The used slots hold the map's entries, each once. */
  ghost predicate Refines<K>(es: seq<Entry<K>>, m: Counts<K>) {
    && (forall i :: 0 <= i < |es| && es[i].Slot? ==>
          es[i].rep in m && m[es[i].rep] == es[i].val && Find(es, es[i].rep, 0) == i)
    && (forall rep :: rep in m ==> Find(es, rep, 0) >= 0)
    && |m| == Used(es, 0)
  }

  lemma {:induction false} UsedSet<K>(es: seq<Entry<K>>, i: nat, e: Entry<K>, k: nat)
    requires i < |es| && e.Slot? && k <= |es|
    ensures Used(es[i := e], k) == Used(es, k) + if es[i].Slot? || i < k then 0 else 1
    decreases |es| - k
  {
    if k < |es| {
      UsedSet(es, i, e, k + 1);
    }
  }

  lemma {:induction false} FindOther<K>(es: seq<Entry<K>>, i: nat, e: Entry<K>, rep: K, k: nat)
    requires i < |es| && k <= |es| && !Holds(es[i], rep) && !Holds(e, rep)
    ensures Find(es[i := e], rep, k) == Find(es, rep, k)
    decreases |es| - k
  {
    if k < |es| {
      FindOther(es, i, e, rep, k + 1);
    }
  }

  lemma {:induction false} FindOwn<K>(es: seq<Entry<K>>, i: nat, e: Entry<K>, k: nat)
    requires k <= i < |es| && e.Slot? && (Find(es, e.rep, k) == -1 || Find(es, e.rep, k) == i)
    ensures Find(es[i := e], e.rep, k) == i
    decreases |es| - k
  {
    if k < i {
      FindOwn(es, i, e, k + 1);
    }
  }

  /** Writing a slot that is free or already the replica's own. */
  lemma Write<K>(es: seq<Entry<K>>, m: Counts<K>, i: nat, e: Entry<K>)
    requires Refines(es, m) && i < |es| && e.Slot?
    requires if es[i].Slot? then es[i].rep == e.rep else Find(es, e.rep, 0) == -1
    ensures Refines(es[i := e], m[e.rep := e.val])
  {
    var after, n := es[i := e], m[e.rep := e.val];
    UsedSet(es, i, e, 0);
    WriteSize(es, m, i, e);
    FindOwn(es, i, e, 0);
    forall rep | rep in n
      ensures Find(after, rep, 0) >= 0
    {
      if rep != e.rep {
        FindOther(es, i, e, rep, 0);
      }
    }
    forall j | 0 <= j < |es| && after[j].Slot?
      ensures after[j].rep in n && n[after[j].rep] == after[j].val && Find(after, after[j].rep, 0) == j
    {
      if j != i {
        assert Find(es, es[j].rep, 0) == j;
        FindOther(es, i, e, es[j].rep, 0);
      }
    }
  }

  lemma WriteSize<K>(es: seq<Entry<K>>, m: Counts<K>, i: nat, e: Entry<K>)
    requires Refines(es, m) && i < |es| && e.Slot?
    requires if es[i].Slot? then es[i].rep == e.rep else Find(es, e.rep, 0) == -1
    ensures |m[e.rep := e.val]| == |m| + if es[i].Slot? then 0 else 1
  {
    assert m[e.rep := e.val].Keys == m.Keys + {e.rep};
    if es[i].Slot? {
      assert e.rep in m;
    } else {
      assert e.rep !in m;
    }
  }

  lemma FoundIff<K>(es: seq<Entry<K>>, m: Counts<K>, rep: K)
    requires Refines(es, m)
    ensures Find(es, rep, 0) >= 0 <==> rep in m
    ensures rep in m ==> es[Find(es, rep, 0)] == Slot(rep, m[rep])
  {
  }

  lemma RoomIff<K>(es: seq<Entry<K>>, m: Counts<K>)
    requires Refines(es, m)
    ensures Free(es, 0) >= 0 <==> |m| < |es|
  {
    FullIff(es, 0);
  }

  /** The entries of the map that sit in the slots below j. */
  ghost function Upto<K>(es: seq<Entry<K>>, m: Counts<K>, j: nat): Counts<K> {
    map rep | rep in m && Find(es, rep, 0) < j :: m[rep]
  }

  lemma UptoStep<K>(es: seq<Entry<K>>, m: Counts<K>, j: nat)
    requires Refines(es, m) && j < |es|
    ensures Upto(es, m, j + 1) == if es[j].Slot? then Upto(es, m, j)[es[j].rep := es[j].val] else Upto(es, m, j)
    ensures es[j].Slot? ==> es[j].rep !in Upto(es, m, j)
  {
    if es[j].Slot? {
      assert Find(es, es[j].rep, 0) == j;
    }
  }

  lemma UptoAll<K>(es: seq<Entry<K>>, m: Counts<K>)
    requires Refines(es, m)
    ensures Upto(es, m, |es|) == m
  {
  }

  lemma JoinOne<K>(a: Counts<K>, b: Counts<K>, rep: K, val: nat)
    requires rep !in b
    ensures JoinCounts(a, b[rep := val]) == JoinCounts(a, b)[rep := Max(At(JoinCounts(a, b), rep), val)]
  {
    assert JoinCounts(a, b[rep := val]).Keys == JoinCounts(a, b).Keys + {rep};
  }

  lemma JoinNone<K>(a: Counts<K>)
    ensures JoinCounts(a, map[]) == a
  {
    assert JoinCounts(a, map[]).Keys == a.Keys;
  }

  /** One entry of another counter taken in: the larger count wins, a new replica needs a slot. */
  ghost function Taken<K>(out: Counts<K>, e: Entry<K>): Counts<K> {
    match e
    case Unused => out
    case Slot(rep, val) => if rep in out || |out| < REPLICAS then out[rep := Max(At(out, rep), val)] else out
  }

  /** Another counter's slots below j taken in, one after the other. */
  ghost function TakenUpto<K>(out: Counts<K>, es: seq<Entry<K>>, j: nat): Counts<K>
    requires j <= |es|
  {
    if j == 0 then out else Taken(TakenUpto(out, es, j - 1), es[j - 1])
  }

  /** Slots below j with replicas that mine lacks. */
  ghost function NewBelow<K>(es: seq<Entry<K>>, mine: Counts<K>, j: nat): nat
    requires j <= |es|
  {
    if j == 0 then 0 else NewBelow(es, mine, j - 1) + if es[j - 1].Slot? && es[j - 1].rep !in mine then 1 else 0
  }

  /** Slot k has replica rep, and fewer new replicas before it than mine has room for. */
  ghost predicate HasRoom<K>(es: seq<Entry<K>>, mine: Counts<K>, k: nat, rep: K) {
    k < |es| && Holds(es[k], rep) && |mine| + NewBelow(es, mine, k) < REPLICAS
  }

  /** A replica comes in one slot only. */
  lemma OneSlot<K>(es: seq<Entry<K>>, theirs: Counts<K>, j: nat, k: nat)
    requires Refines(es, theirs) && k < |es| && j < |es| && es[k].Slot? && es[j].Slot? && es[k].rep == es[j].rep
    ensures k == j
  {
    assert Find(es, es[j].rep, 0) == j && Find(es, es[k].rep, 0) == k;
  }

  /** rep is mine or has room in a slot below j. */
  ghost predicate Kept<K>(es: seq<Entry<K>>, mine: Counts<K>, j: nat, rep: K) {
    rep in mine || exists k :: 0 <= k < j && HasRoom(es, mine, k, rep)
  }

  lemma KeptStep<K>(es: seq<Entry<K>>, mine: Counts<K>, j: nat, rep: K)
    requires j < |es|
    ensures Kept(es, mine, j + 1, rep) <==> Kept(es, mine, j, rep) || HasRoom(es, mine, j, rep)
  {
  }

  lemma NotYet<K>(es: seq<Entry<K>>, theirs: Counts<K>, mine: Counts<K>, j: nat)
    requires Refines(es, theirs) && j < |es| && es[j].Slot?
    ensures Kept(es, mine, j, es[j].rep) <==> es[j].rep in mine
  {
    forall k: nat | HasRoom(es, mine, k, es[j].rep)
      ensures k == j
    {
      OneSlot(es, theirs, j, k);
    }
  }

  lemma TakenKeys<K>(out: Counts<K>, e: Entry<K>)
    requires |out| <= REPLICAS
    ensures Taken(out, e).Keys == if e.Slot? && |out| < REPLICAS then out.Keys + {e.rep} else out.Keys
    ensures |Taken(out, e)| == |out| + if e.Slot? && e.rep !in out && |out| < REPLICAS then 1 else 0
  {
    if e.Slot? {
      assert out[e.rep := Max(At(out, e.rep), e.val)].Keys == out.Keys + {e.rep};
    }
  }

  lemma KeptNext<K>(es: seq<Entry<K>>, theirs: Counts<K>, mine: Counts<K>, before: Counts<K>, j: nat)
    requires Refines(es, theirs) && |before| <= REPLICAS && j < |es|
    requires |before| == (if |mine| + NewBelow(es, mine, j) < REPLICAS
          then |mine| + NewBelow(es, mine, j) else REPLICAS)
    requires forall rep :: rep in before <==> Kept(es, mine, j, rep)
    ensures forall rep :: rep in Taken(before, es[j]) <==> Kept(es, mine, j + 1, rep)
    ensures es[j].Slot? ==> (es[j].rep in before <==> es[j].rep in mine)
  {
    TakenKeys(before, es[j]);
    if es[j].Slot? {
      NotYet(es, theirs, mine, j);
    }
    forall rep
      ensures rep in Taken(before, es[j]) <==> Kept(es, mine, j + 1, rep)
    {
      KeptStep(es, mine, j, rep);
    }
  }

  /** When not all replicas fit, the new ones in the other counter's first slots are kept. */
  lemma {:induction false} KeptReplicas<K>(es: seq<Entry<K>>, theirs: Counts<K>, mine: Counts<K>, j: nat)
    requires Refines(es, theirs) && |mine| <= REPLICAS && j <= |es|
    ensures var n := |mine| + NewBelow(es, mine, j); |TakenUpto(mine, es, j)| == if n < REPLICAS then n else REPLICAS
    ensures forall rep :: rep in TakenUpto(mine, es, j) <==> Kept(es, mine, j, rep)
  {
    if j > 0 {
      KeptReplicas(es, theirs, mine, j - 1);
      KeptNext(es, theirs, mine, TakenUpto(mine, es, j - 1), j - 1);
      TakenKeys(TakenUpto(mine, es, j - 1), es[j - 1]);
    }
  }

  /** The whole map, or as much of it as fits all the slots. */
  ghost predicate Partial<K>(part: Counts<K>, all: Counts<K>) {
    && (forall rep :: rep in part ==> rep in all && part[rep] == all[rep])
    && (part == all || |part| == REPLICAS)
  }

  lemma Fits<K>(a: Counts<K>, b: Counts<K>, out: Counts<K>)
    requires Partial(out, JoinCounts(a, b))
    ensures |a.Keys + b.Keys| <= REPLICAS ==> out == JoinCounts(a, b)
  {
    if |a.Keys + b.Keys| <= REPLICAS {
      SubsetSize(out.Keys, a.Keys + b.Keys);
    }
  }

  lemma TakenPartial<K>(part: Counts<K>, all: Counts<K>, rep: K, val: nat)
    requires Partial(part, all) && |part| <= REPLICAS
    ensures part.Keys <= Taken(part, Slot(rep, val)).Keys
    ensures Partial(Taken(part, Slot(rep, val)), all[rep := Max(At(all, rep), val)])
  {
    if rep in part {
      assert part[rep := Max(At(part, rep), val)].Keys == part.Keys;
    }
  }

  /** What taking in the slots below j has given so far. */
  ghost predicate Merging<K>(es: seq<Entry<K>>, theirs: Counts<K>, j: nat, mine: Counts<K>, out: Counts<K>) {
    mine.Keys <= out.Keys && Partial(out, JoinCounts(mine, Upto(es, theirs, j)))
  }

  lemma MergingStep<K>(es: seq<Entry<K>>, theirs: Counts<K>, j: nat, mine: Counts<K>, out: Counts<K>)
    requires Refines(es, theirs) && j < |es| && |out| <= REPLICAS && Merging(es, theirs, j, mine, out)
    ensures Merging(es, theirs, j + 1, mine, Taken(out, es[j]))
  {
    UptoStep(es, theirs, j);
    if es[j].Slot? {
      JoinOne(mine, Upto(es, theirs, j), es[j].rep, es[j].val);
      TakenPartial(out, JoinCounts(mine, Upto(es, theirs, j)), es[j].rep, es[j].val);
    }
  }

  lemma {:induction false} TakenFits<K>(es: seq<Entry<K>>, mine: Counts<K>, j: nat)
    requires |mine| <= REPLICAS && j <= |es|
    ensures |TakenUpto(mine, es, j)| <= REPLICAS
  {
    if j > 0 {
      TakenFits(es, mine, j - 1);
      TakenKeys(TakenUpto(mine, es, j - 1), es[j - 1]);
    }
  }

  lemma MergingStart<K>(es: seq<Entry<K>>, theirs: Counts<K>, mine: Counts<K>)
    requires Refines(es, theirs)
    ensures Merging(es, theirs, 0, mine, mine)
  {
    assert Upto(es, theirs, 0) == map[];
    JoinNone(mine);
  }

  lemma {:induction false} MergingAll<K>(es: seq<Entry<K>>, theirs: Counts<K>, mine: Counts<K>, j: nat)
    requires Refines(es, theirs) && |mine| <= REPLICAS && j <= |es|
    ensures Merging(es, theirs, j, mine, TakenUpto(mine, es, j))
  {
    if j == 0 {
      MergingStart(es, theirs, mine);
    } else {
      MergingAll(es, theirs, mine, j - 1);
      TakenFits(es, mine, j - 1);
      MergingStep(es, theirs, j - 1, mine, TakenUpto(mine, es, j - 1));
    }
  }

  /** Taking in all slots gives the join, or as much of it as fits. */
  lemma Merged<K>(es: seq<Entry<K>>, theirs: Counts<K>, mine: Counts<K>)
    requires Refines(es, theirs) && |mine| <= REPLICAS
    ensures var out := TakenUpto(mine, es, |es|); mine.Keys <= out.Keys && Partial(out, JoinCounts(mine, theirs))
  {
    MergingAll(es, theirs, mine, |es|);
    UptoAll(es, theirs);
  }

  lemma {:induction false} UsedNone<K>(es: seq<Entry<K>>, i: nat)
    requires i <= |es| && forall j :: 0 <= j < |es| ==> !es[j].Slot?
    ensures Used(es, i) == 0
    decreases |es| - i
  {
    if i < |es| {
      UsedNone(es, i + 1);
    }
  }

  // ----- the counter object -----

  class GCounter<K(==)> {
    const slots: array<Entry<K>>
    ghost var counts: Counts<K>

    ghost predicate Valid()
      reads this, slots
    {
      slots.Length == REPLICAS && Refines(slots[..], counts)
    }

    constructor ()
      ensures Valid() && fresh(slots) && counts == map[]
      ensures forall i :: 0 <= i < slots.Length ==> !slots[i].Slot?
    {
      slots := new Entry<K>[REPLICAS](_ => Unused);
      counts := map[];
      new;
      UsedNone(slots[..], 0);
    }

    method FindSlot(rep: K) returns (i: int)
      ensures i == Find(slots[..], rep, 0)
    {
      i := 0;
      while i < slots.Length
        invariant 0 <= i <= slots.Length && Find(slots[..], rep, 0) == Find(slots[..], rep, i)
      {
        if slots[i].Slot? && slots[i].rep == rep {
          return;
        }
        i := i + 1;
      }
      i := -1;
    }

    method FreeSlot() returns (i: int)
      ensures i == Free(slots[..], 0)
    {
      i := 0;
      while i < slots.Length
        invariant 0 <= i <= slots.Length && Free(slots[..], 0) == Free(slots[..], i)
      {
        if !slots[i].Slot? {
          return;
        }
        i := i + 1;
      }
      i := -1;
    }

    method SetSlot(i: nat, e: Entry<K>)
      requires Valid() && i < slots.Length && e.Slot?
      requires if slots[i].Slot? then slots[i].rep == e.rep else Find(slots[..], e.rep, 0) == -1
      modifies slots, this`counts
      ensures Valid() && counts == old(counts)[e.rep := e.val] && slots[..] == old(slots[..])[i := e]
    {
      Write(slots[..], counts, i, e);
      slots[i] := e;
      counts := counts[e.rep := e.val];
      assert slots[..] == old(slots[..])[i := e];
    }

    /** Writes the first count of a replica without a slot, if there is a slot for it. */
    method SetNew(rep: K, val: nat) returns (ok: bool)
      requires Valid() && rep !in counts
      modifies slots, this`counts
      ensures Valid() && ok == (|old(counts)| < REPLICAS)
      ensures counts == if ok then old(counts)[rep := val] else old(counts)
    {
      FoundIff(slots[..], counts, rep);
      RoomIff(slots[..], counts);
      var f := FreeSlot();
      ok := f >= 0;
      if ok {
        SetSlot(f, Slot(rep, val));
      }
    }

    method SetOwn(i: nat, rep: K, val: nat)
      requires Valid() && i == Find(slots[..], rep, 0)
      modifies slots, this`counts
      ensures Valid() && counts == old(counts)[rep := val]
    {
      assert slots[i] == slots[..][i];
      SetSlot(i, slots[i].(val := val));
    }

    /** Adds delta to this replica's own count; refused for a negative delta, or for a new replica
        when all slots are taken. */
    method Inc(rid: K, delta: int) returns (ok: bool)
      requires Valid()
      modifies slots, this`counts
      ensures Valid()
      ensures ok <==> delta >= 0 && (rid in old(counts) || |old(counts)| < 16)
      ensures counts == if ok then old(counts)[rid := At(old(counts), rid) + delta] else old(counts)
    {
      if delta < 0 {
        return false;
      }
      FoundIff(slots[..], counts, rid);
      var i := FindSlot(rid);
      if i >= 0 {
        SetOwn(i, rid, slots[i].val + delta);
        return true;
      }
      ok := SetNew(rid, delta);
    }

    method Sum() returns (total: nat)
      requires Valid()
      ensures total == Value(counts)
    {
      total := 0;
      ghost var es := slots[..];
      for i := 0 to slots.Length
        invariant total == Value(Upto(es, counts, i))
      {
        assert slots[i] == es[i];
        UptoStep(es, counts, i);
        if slots[i].Slot? {
          ValueSet(Upto(es, counts, i), slots[i].rep, slots[i].val);
          total := total + slots[i].val;
        }
      }
      UptoAll(es, counts);
    }

    /** Takes in one entry of another counter: the larger count wins, a new replica needs a slot. */
    method Put(e: Entry<K>)
      requires Valid()
      modifies slots, this`counts
      ensures Valid()
      ensures counts == Taken(old(counts), e)
    {
      if e.Unused? {
        return;
      }
      FoundIff(slots[..], counts, e.rep);
      var i := FindSlot(e.rep);
      if i >= 0 {
        assert slots[i] == slots[..][i];
        if e.val > slots[i].val {
          SetOwn(i, e.rep, e.val);
        }
      } else {
        var ok := SetNew(e.rep, e.val);
      }
    }

    /** Copies another counter's used slots to the same places. */
    method CopyFrom(a: GCounter<K>)
      requires a.Valid() && slots.Length == REPLICAS && a.slots != slots
      requires forall i :: 0 <= i < slots.Length ==> slots[i] == Unused
      modifies slots, this`counts
      ensures Valid() && counts == a.counts
    {
      for i := 0 to REPLICAS
        invariant forall k :: 0 <= k < i ==> slots[k] == a.slots[k]
        invariant forall k :: i <= k < REPLICAS ==> slots[k] == Unused
      {
        if a.slots[i].Slot? {
          slots[i] := a.slots[i];
        }
      }
      assert slots[..] == a.slots[..];
      counts := a.counts;
    }

    method PutAll(b: GCounter<K>)
      requires Valid() && b.slots.Length == REPLICAS && b.slots != slots
      modifies slots, this`counts
      ensures Valid() && counts == TakenUpto(old(counts), b.slots[..], REPLICAS)
    {
      ghost var es, mine := b.slots[..], counts;
      for j := 0 to REPLICAS
        invariant Valid() && b.slots[..] == es && counts == TakenUpto(mine, es, j)
      {
        assert b.slots[j] == es[j];
        Put(b.slots[j]);
        assert counts == TakenUpto(mine, es, j + 1);
      }
    }

    /** A new counter with the pointwise maximum of both, which stay as they are; a and b may be
        the same counter. If the replicas do not fit, b's last ones are left out, and only then. */
    static method Merge(a: GCounter<K>, b: GCounter<K>) returns (out: GCounter<K>)
      requires a.Valid() && b.Valid()
      ensures fresh(out) && fresh(out.slots) && out.Valid()
      ensures |a.counts.Keys + b.counts.Keys| <= 16 ==> out.counts == JoinCounts(a.counts, b.counts)
      ensures a.counts.Keys <= out.counts.Keys && Partial(out.counts, JoinCounts(a.counts, b.counts))
      ensures forall rep :: rep in out.counts <==>
                Kept(b.slots[..], a.counts, REPLICAS, rep)
    {
      out := new GCounter();
      out.CopyFrom(a);
      out.PutAll(b);
      assert |a.counts| <= REPLICAS;
      Merged(b.slots[..], b.counts, a.counts);
      Fits(a.counts, b.counts, out.counts);
      KeptReplicas(b.slots[..], b.counts, a.counts, REPLICAS);
    }
  }
}
