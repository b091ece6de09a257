/** Non-dominated sorting of individuals by their fitness components. */
module ParetoLayers {
  import opened Collections

  type Components = map<string, real>

  datatype Fitness = Fitness(id: string, components: Components)

  function At(c: Components, k: string): real {
    if k in c then c[k] else 0.0
  }

  /** At least as good in every component of either, and better in one; absent components are 0. */
  predicate Dominates(a: Components, b: Components) {
    var keys := a.Keys + b.Keys;
    (forall k :: k in keys ==> At(a, k) >= At(b, k)) && (exists k :: k in keys && At(a, k) > At(b, k))
  }

  lemma DominatesEverywhere(a: Components, b: Components, k: string)
    requires Dominates(a, b)
    ensures At(a, k) >= At(b, k)
  {
    if k in a.Keys + b.Keys {
    }
  }

  /** Domination is a strict order. */
  lemma DominatesTransitive(a: Components, b: Components, c: Components)
    requires Dominates(a, b) && Dominates(b, c)
    ensures Dominates(a, c)
  {
    forall k | k in a.Keys + c.Keys
      ensures At(a, k) >= At(c, k)
    {
      DominatesEverywhere(a, b, k);
      DominatesEverywhere(b, c, k);
    }
    var k :| k in a.Keys + b.Keys && At(a, k) > At(b, k);
    DominatesEverywhere(b, c, k);
    assert k in a.Keys + c.Keys;
  }

  lemma DominatesIrreflexive(a: Components)
    ensures !Dominates(a, a)
  {
  }

  /** Raising one component is enough, and an absent one counts as 0. */
  lemma RaisedDominates(a: Components, k: string, v: real)
    ensures Dominates(a[k := v], a) <==> v > if k in a then a[k] else 0.0
    ensures Dominates(a, a[k := v]) <==> v < if k in a then a[k] else 0.0
  {
    var b := a[k := v];
    assert forall j :: j in a.Keys + b.Keys && j != k ==> At(a, j) == At(b, j);
    assert k in a.Keys + b.Keys && At(b, k) == v;
  }

  /** A component better and one worse: neither dominates. */
  lemma TradedOff(a: Components, b: Components, j: string, k: string)
    requires j in a && j in b && k in a && k in b && a[j] > b[j] && a[k] < b[k]
    ensures !Dominates(a, b) && !Dominates(b, a)
  {
    assert j in a.Keys + b.Keys && k in a.Keys + b.Keys;
  }

  // ----- one front -----

  predicate DominatedIn(x: Fitness, s: seq<Fitness>) {
    exists i :: 0 <= i < |s| && Dominates(s[i].components, x.components)
  }

  /** The members of s that pass or fail the test of being dominated in all, in order. */
  function Pick(s: seq<Fitness>, all: seq<Fitness>, dominated: bool): (r: seq<Fitness>)
    ensures |r| <= |s|
  {
    if s == [] then []
    else
      var x := s[|s| - 1];
      Pick(s[..|s| - 1], all, dominated) + if DominatedIn(x, all) == dominated then [x] else []
  }

  function Front(s: seq<Fitness>): seq<Fitness> {
    Pick(s, s, false)
  }

  function Behind(s: seq<Fitness>): seq<Fitness> {
    Pick(s, s, true)
  }

  lemma {:induction false} PickIs(s: seq<Fitness>, all: seq<Fitness>, dominated: bool, x: Fitness)
    ensures x in Pick(s, all, dominated) <==> x in s && DominatedIn(x, all) == dominated
  {
    if s != [] {
      PickIs(s[..|s| - 1], all, dominated, x);
      assert s == s[..|s| - 1] + [s[|s| - 1]];
    }
  }

  /** Members stay in the order of the input. */
  lemma {:induction false} PickKeepsOrder(a: seq<Fitness>, b: seq<Fitness>, all: seq<Fitness>, dominated: bool)
    ensures Pick(a + b, all, dominated) == Pick(a, all, dominated) + Pick(b, all, dominated)
    decreases |b|
  {
    if b == [] {
      assert a + b == a;
    } else {
      var n := |b| - 1;
      assert (a + b)[..|a + b| - 1] == a + b[..n];
      PickKeepsOrder(a, b[..n], all, dominated);
    }
  }

  lemma {:induction false} PickSplits(s: seq<Fitness>, all: seq<Fitness>)
    ensures multiset(Pick(s, all, false)) + multiset(Pick(s, all, true)) == multiset(s)
    ensures |Pick(s, all, false)| + |Pick(s, all, true)| == |s|
  {
    if s != [] {
      var front, x := s[..|s| - 1], s[|s| - 1];
      PickSplits(front, all);
      assert multiset(s) == multiset(front) + multiset{x} by {
        assert s == front + [x];
      }
    }
  }

  /** Everyone in s who is better than x. */
  function Better(s: seq<Fitness>, x: Fitness): set<int> {
    set i | 0 <= i < |s| && Dominates(s[i].components, x.components)
  }

  /** Whoever is dominated is dominated by somebody who is not. */
  lemma {:induction false} Climb(s: seq<Fitness>, x: Fitness) returns (m: Fitness)
    requires DominatedIn(x, s)
    ensures m in s && !DominatedIn(m, s) && Dominates(m.components, x.components)
    decreases |Better(s, x)|
  {
    var i :| 0 <= i < |s| && Dominates(s[i].components, x.components);
    m := s[i];
    if DominatedIn(m, s) {
      forall j | j in Better(s, m)
        ensures j in Better(s, x)
      {
        DominatesTransitive(s[j].components, m.components, x.components);
      }
      DominatesIrreflexive(m.components);
      assert i in Better(s, x) && i !in Better(s, m);
      SubsetSize(Better(s, m), Better(s, x));
      var y := m;
      m := Climb(s, y);
      DominatesTransitive(m.components, y.components, x.components);
    }
  }

  /** While anyone is left the front is not empty. */
  lemma FrontNotEmpty(s: seq<Fitness>)
    requires s != []
    ensures Front(s) != [] && |Behind(s)| < |s|
  {
    var x := s[0];
    PickSplits(s, s);
    if DominatedIn(x, s) {
      var m := Climb(s, x);
      PickIs(s, s, false, m);
    } else {
      PickIs(s, s, false, x);
    }
  }

  // ----- all layers -----

  function Layers(s: seq<Fitness>): seq<seq<Fitness>>
    decreases |s|
  {
    if s == [] then []
    else
      FrontNotEmpty(s);
      [Front(s)] + Layers(Behind(s))
  }

  function Members(layers: seq<seq<Fitness>>): seq<Fitness> {
    if layers == [] then [] else layers[0] + Members(layers[1..])
  }

  /** Every individual is in exactly one layer, as often as in the input. */
  lemma {:induction false} LayersPartition(s: seq<Fitness>)
    ensures multiset(Members(Layers(s))) == multiset(s)
    decreases |s|
  {
    if s != [] {
      FrontNotEmpty(s);
      LayersPartition(Behind(s));
      PickSplits(s, s);
      assert Layers(s)[1..] == Layers(Behind(s));
    }
  }

  lemma {:induction false} LayerMember(s: seq<Fitness>, i: nat, x: Fitness)
    requires i < |Layers(s)| && x in Layers(s)[i]
    ensures x in s
    decreases |s|
  {
    FrontNotEmpty(s);
    if i == 0 {
      PickIs(s, s, false, x);
    } else {
      LayerMember(Behind(s), i - 1, x);
      PickIs(s, s, true, x);
    }
  }

  /** Nobody is dominated by a member of the same layer or a later one. */
  lemma {:induction false} NoneDominatedLater(s: seq<Fitness>, i: nat, j: nat, x: Fitness, y: Fitness)
    requires i <= j < |Layers(s)| && x in Layers(s)[i] && y in Layers(s)[j]
    ensures !Dominates(y.components, x.components)
    decreases |s|
  {
    FrontNotEmpty(s);
    if i == 0 {
      PickIs(s, s, false, x);
      LayerMember(s, j, y);
      var k :| 0 <= k < |s| && s[k] == y;
    } else {
      NoneDominatedLater(Behind(s), i - 1, j - 1, x, y);
    }
  }

  /** Every member of a layer behind the first is dominated by a member of the layer before. */
  lemma {:induction false} DominatedByPrevious(s: seq<Fitness>, i: nat, x: Fitness) returns (m: Fitness)
    requires i + 1 < |Layers(s)| && x in Layers(s)[i + 1]
    ensures m in Layers(s)[i] && Dominates(m.components, x.components)
    decreases |s|
  {
    FrontNotEmpty(s);
    if i == 0 {
      FrontNotEmpty(Behind(s));
      PickIs(Behind(s), Behind(s), false, x);
      PickIs(s, s, true, x);
      m := Climb(s, x);
      PickIs(s, s, false, m);
    } else {
      m := DominatedByPrevious(Behind(s), i - 1, x);
    }
  }

  // ----- the loops -----

  function Ids(s: seq<Fitness>): seq<string> {
    seq(|s|, i requires 0 <= i < |s| => s[i].id)
  }

  function LayerIds(layers: seq<seq<Fitness>>): seq<seq<string>> {
    seq(|layers|, i requires 0 <= i < |layers| => Ids(layers[i]))
  }

  method IsDominated(x: Fitness, s: seq<Fitness>) returns (dominated: bool)
    ensures dominated == DominatedIn(x, s)
  {
    for i := 0 to |s|
      invariant forall k :: 0 <= k < i ==> !Dominates(s[k].components, x.components)
    {
      if Dominates(s[i].components, x.components) {
        return true;
      }
    }
    dominated := false;
  }

  method FindFront(s: seq<Fitness>) returns (front: seq<Fitness>)
    ensures front == Front(s)
  {
    front := [];
    for i := 0 to |s|
      invariant front == Pick(s[..i], s, false)
    {
      assert s[..i + 1][..i] == s[..i];
      var dominated := IsDominated(s[i], s);
      if !dominated {
        front := front + [s[i]];
      }
    }
    assert s[..|s|] == s;
  }

  /** Those not in the front, in order. */
  method Without(s: seq<Fitness>, front: seq<Fitness>) returns (rest: seq<Fitness>)
    requires front == Front(s)
    ensures rest == Behind(s)
  {
    rest := [];
    for i := 0 to |s|
      invariant rest == Pick(s[..i], s, true)
    {
      assert s[..i + 1][..i] == s[..i];
      PickIs(s, s, false, s[i]);
      if s[i] !in front {
        rest := rest + [s[i]];
      }
    }
    assert s[..|s|] == s;
  }

  /** The layers' ids; the loop ends because no front is empty, so its emergency exit is not needed. */
  method ParetoLayers(items: seq<Fitness>) returns (layers: seq<seq<string>>)
    ensures layers == LayerIds(Layers(items)) && |layers| == |Layers(items)|
    ensures forall i :: 0 <= i < |layers| ==> |layers[i]| == |Layers(items)[i]|
    ensures forall i, j :: 0 <= i < |layers| && 0 <= j < |layers[i]| ==> layers[i][j] == Layers(items)[i][j].id
  {
    layers := [];
    var remaining := items;
    while remaining != []
      invariant LayerIds(Layers(items)) == layers + LayerIds(Layers(remaining))
      decreases |remaining|
    {
      var front := FindFront(remaining);
      var rest := Without(remaining, front);
      FrontNotEmpty(remaining);
      assert LayerIds(Layers(remaining)) == [Ids(front)] + LayerIds(Layers(rest));
      layers := layers + [Ids(front)];
      remaining := rest;
    }
  }
}

/** Descendants in a lineage: a stack-based search against reachability. */
module Evolvability {

  datatype Individual<I> = Individual(id: I, parents: seq<I>)

  /** c is a child of p. */
  ghost predicate Edge<I>(pop: seq<Individual<I>>, p: I, c: I) {
    exists k :: 0 <= k < |pop| && pop[k].id == c && p in pop[k].parents
  }

  ghost predicate Chain<I>(pop: seq<Individual<I>>, path: seq<I>) {
    forall k :: 0 <= k < |path| - 1 ==> Edge(pop, path[k], path[k + 1])
  }

  /** A chain of one or more edges from a to d. */
  ghost predicate Leads<I>(pop: seq<Individual<I>>, path: seq<I>, a: I, d: I) {
    |path| >= 2 && path[0] == a && path[|path| - 1] == d && Chain(pop, path)
  }

  ghost predicate Descends<I(!new)>(pop: seq<Individual<I>>, a: I, d: I) {
    exists path :: Leads(pop, path, a, d)
  }

  function Ids<I(==)>(pop: seq<Individual<I>>): set<I> {
    set k | 0 <= k < |pop| :: pop[k].id
  }

  ghost function Descendants<I(!new)>(pop: seq<Individual<I>>, a: I): set<I> {
    set d | d in Ids(pop) && Descends(pop, a, d)
  }

  function ChildrenOf<I(==)>(kids: map<I, seq<I>>, p: I): seq<I> {
    if p in kids then kids[p] else []
  }

  /** The table lists exactly the children of everyone, parents unknown to the population included. */
  ghost predicate ByMeans<I(!new)>(kids: map<I, seq<I>>, pop: seq<Individual<I>>) {
    forall p, c :: c in ChildrenOf(kids, p) <==> Edge(pop, p, c)
  }

  lemma EdgeDescends<I(!new)>(pop: seq<Individual<I>>, a: I, d: I)
    requires Edge(pop, a, d)
    ensures Descends(pop, a, d)
  {
    assert Leads(pop, [a, d], a, d);
  }

  lemma StepDescends<I(!new)>(pop: seq<Individual<I>>, a: I, b: I, c: I)
    requires Descends(pop, a, b) && Edge(pop, b, c)
    ensures Descends(pop, a, c)
  {
    var path :| Leads(pop, path, a, b);
    assert Leads(pop, path + [c], a, c);
  }

  /** A set that has a's children and with everyone their children has all of a's descendants. */
  lemma {:induction false} ClosedHasAll<I(!new)>(pop: seq<Individual<I>>, a: I, path: seq<I>, d: I, closed: set<I>)
    requires Leads(pop, path, a, d)
    requires forall c :: Edge(pop, a, c) ==> c in closed
    requires forall b, c :: b in closed && Edge(pop, b, c) ==> c in closed
    ensures d in closed
    decreases |path|
  {
    var n := |path| - 1;
    assert Edge(pop, path[n - 1], path[n]);
    if n > 1 {
      assert Leads(pop, path[..n], a, path[n - 1]);
      ClosedHasAll(pop, a, path[..n], path[n - 1], closed);
    }
  }

  // ----- the table of children -----

  function AddChild<I(==)>(kids: map<I, seq<I>>, p: I, c: I): map<I, seq<I>> {
    kids[p := ChildrenOf(kids, p) + [c]]
  }

  method ChildTable<I(==, !new)>(pop: seq<Individual<I>>) returns (kids: map<I, seq<I>>)
    ensures ByMeans(kids, pop)
  {
    kids := map id | id in Ids(pop) :: [];
    for i := 0 to |pop|
      invariant forall p, c :: c in ChildrenOf(kids, p) <==> Edge(pop[..i], p, c)
    {
      ghost var before := kids;
      var ind := pop[i];
      for j := 0 to |ind.parents|
        invariant forall p, c :: c in ChildrenOf(kids, p) <==>
                    c in ChildrenOf(before, p) || (c == ind.id && p in ind.parents[..j])
      {
        kids := AddChild(kids, ind.parents[j], ind.id);
      }
      assert ind.parents[..|ind.parents|] == ind.parents;
      forall p, c
        ensures Edge(pop[..i + 1], p, c) <==> Edge(pop[..i], p, c) || (c == ind.id && p in ind.parents)
      {
        EdgeStep(pop, i, p, c);
      }
    }
    assert pop[..|pop|] == pop;
  }

  lemma EdgeStep<I>(pop: seq<Individual<I>>, i: nat, p: I, c: I)
    requires i < |pop|
    ensures Edge(pop[..i + 1], p, c) <==> Edge(pop[..i], p, c) || (c == pop[i].id && p in pop[i].parents)
  {
    var more, front := pop[..i + 1], pop[..i];
    if k :| 0 <= k < |more| && more[k].id == c && p in more[k].parents {
      assert k < i ==> front[k] == more[k];
    }
    if k :| 0 <= k < |front| && front[k].id == c && p in front[k].parents {
      assert more[k] == front[k];
    }
    if c == pop[i].id && p in pop[i].parents {
      assert more[i] == pop[i];
    }
  }

  // ----- the search -----

  /** What the search keeps: everything found is a descendant, and the children of the start and
      of everything seen are seen or on the stack. */
  ghost predicate Searching<I(!new)>(pop: seq<Individual<I>>, a: I, seen: set<I>, stack: seq<I>) {
    && seen <= Ids(pop)
    && (forall x :: x in seen ==> Descends(pop, a, x))
    && (forall k :: 0 <= k < |stack| ==> stack[k] in Ids(pop) && Descends(pop, a, stack[k]))
    && (forall c :: Edge(pop, a, c) ==> c in seen || c in stack)
    && (forall x, c :: x in seen && Edge(pop, x, c) ==> c in seen || c in stack)
  }

  lemma EdgeInPopulation<I>(pop: seq<Individual<I>>, p: I, c: I)
    requires Edge(pop, p, c)
    ensures c in Ids(pop)
  {
  }

  lemma SearchStart<I(!new)>(pop: seq<Individual<I>>, kids: map<I, seq<I>>, a: I)
    requires ByMeans(kids, pop)
    ensures Searching(pop, a, {}, ChildrenOf(kids, a))
  {
    var stack := ChildrenOf(kids, a);
    forall k | 0 <= k < |stack|
      ensures stack[k] in Ids(pop) && Descends(pop, a, stack[k])
    {
      assert stack[k] in stack;
      EdgeDescends(pop, a, stack[k]);
      EdgeInPopulation(pop, a, stack[k]);
    }
  }

  lemma SearchDrop<I(!new)>(pop: seq<Individual<I>>, a: I, seen: set<I>, stack: seq<I>)
    requires Searching(pop, a, seen, stack) && stack != [] && stack[|stack| - 1] in seen
    ensures Searching(pop, a, seen, stack[..|stack| - 1])
  {
    assert stack == stack[..|stack| - 1] + [stack[|stack| - 1]];
  }

  lemma SearchVisit<I(!new)>(pop: seq<Individual<I>>, kids: map<I, seq<I>>, a: I, seen: set<I>, rest: seq<I>, cur: I)
    requires ByMeans(kids, pop) && Searching(pop, a, seen, rest + [cur])
    ensures Searching(pop, a, seen + {cur}, rest + ChildrenOf(kids, cur))
  {
    var stack, more := rest + [cur], rest + ChildrenOf(kids, cur);
    assert stack[|rest|] == cur;
    forall k | 0 <= k < |more|
      ensures more[k] in Ids(pop) && Descends(pop, a, more[k])
    {
      if k < |rest| {
        assert more[k] == stack[k];
      } else {
        assert more[k] in ChildrenOf(kids, cur);
        StepDescends(pop, a, cur, more[k]);
        EdgeInPopulation(pop, cur, more[k]);
      }
    }
  }

  lemma SearchDone<I(!new)>(pop: seq<Individual<I>>, a: I, seen: set<I>)
    requires Searching(pop, a, seen, [])
    ensures seen == Descendants(pop, a)
  {
    forall d | d in Descendants(pop, a)
      ensures d in seen
    {
      var path :| Leads(pop, path, a, d);
      ClosedHasAll(pop, a, path, d, seen);
    }
  }

  lemma OneFewer<I>(ids: set<I>, seen: set<I>, cur: I)
    requires cur in ids && cur !in seen
    ensures |ids - (seen + {cur})| < |ids - seen|
  {
    assert ids - (seen + {cur}) == (ids - seen) - {cur};
  }

  method Search<I(==, !new)>(pop: seq<Individual<I>>, kids: map<I, seq<I>>, a: I) returns (seen: set<I>)
    requires ByMeans(kids, pop)
    ensures seen == Descendants(pop, a)
  {
    seen := {};
    var stack := ChildrenOf(kids, a);
    SearchStart(pop, kids, a);
    while stack != []
      invariant Searching(pop, a, seen, stack)
      decreases |Ids(pop) - seen|, |stack|
    {
      var cur, rest := stack[|stack| - 1], stack[..|stack| - 1];
      assert stack == rest + [cur];
      assert stack[|rest|] == cur;
      if cur in seen {
        SearchDrop(pop, a, seen, stack);
        stack := rest;
      } else {
        SearchVisit(pop, kids, a, seen, rest, cur);
        OneFewer(Ids(pop), seen, cur);
        seen := seen + {cur};
        stack := rest + ChildrenOf(kids, cur);
      }
    }
    SearchDone(pop, a, seen);
  }

  /** The number of descendants of everyone, in any lineage: repeated parents, unknown parents and
      cycles included. */
  method EvolvabilityScore<I(==, !new)>(pop: seq<Individual<I>>) returns (descendants: map<I, nat>)
    ensures descendants.Keys == Ids(pop)
    ensures forall id :: id in descendants ==> descendants[id] == |Descendants(pop, id)|
  {
    var kids := ChildTable(pop);
    descendants := map[];
    for i := 0 to |pop|
      invariant descendants.Keys == Ids(pop[..i])
      invariant forall id :: id in descendants ==> descendants[id] == |Descendants(pop, id)|
    {
      var seen := Search(pop, kids, pop[i].id);
      descendants := descendants[pop[i].id := |seen|];
      assert Ids(pop[..i + 1]) == Ids(pop[..i]) + {pop[i].id};
    }
    assert pop[..|pop|] == pop;
  }
}
