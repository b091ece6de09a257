/** Why replicas converge: folding states with a join gives the same result in every order,
    grouping and multiplicity. */
module Semilattice {

  ghost predicate Joins<S(!new)>(join: (S, S) -> S, ok: S -> bool) {
    && (forall a, b :: ok(a) && ok(b) ==> ok(join(a, b)))
    && (forall a :: ok(a) ==> join(a, a) == a)
    && (forall a, b :: ok(a) && ok(b) ==> join(a, b) == join(b, a))
    && (forall a, b, c :: ok(a) && ok(b) && ok(c) ==> join(a, join(b, c)) == join(join(a, b), c))
  }

  /** A way of merging replica states: which two partial results are merged at each step. */
  datatype Plan<S> = State(s: S) | Merge(left: Plan, right: Plan)

  function Fold<S>(join: (S, S) -> S, p: Plan<S>): S {
    match p
    case State(s) => s
    case Merge(left, right) => join(Fold(join, left), Fold(join, right))
  }

  function States<S>(p: Plan<S>): set<S> {
    match p
    case State(s) => {s}
    case Merge(left, right) => States(left) + States(right)
  }

  predicate Below<S(==)>(join: (S, S) -> S, a: S, b: S) {
    join(a, b) == b
  }

  lemma {:induction false} FoldOk<S(!new)>(join: (S, S) -> S, ok: S -> bool, p: Plan<S>)
    requires Joins(join, ok) && forall s :: s in States(p) ==> ok(s)
    ensures ok(Fold(join, p))
  {
    if p.Merge? {
      FoldOk(join, ok, p.left);
      FoldOk(join, ok, p.right);
    }
  }

  /** Every merged state is below the result. */
  lemma {:induction false} FoldAbove<S(!new)>(join: (S, S) -> S, ok: S -> bool, p: Plan<S>, s: S)
    requires Joins(join, ok) && (forall x :: x in States(p) ==> ok(x)) && s in States(p)
    ensures Below(join, s, Fold(join, p))
  {
    if p.Merge? {
      FoldOk(join, ok, p.left);
      FoldOk(join, ok, p.right);
      var l, r := Fold(join, p.left), Fold(join, p.right);
      if s in States(p.left) {
        FoldAbove(join, ok, p.left, s);
        assert join(s, join(l, r)) == join(join(s, l), r);
      } else {
        FoldAbove(join, ok, p.right, s);
        assert join(s, join(r, l)) == join(join(s, r), l);
      }
    }
  }

  /** The result is below whatever all the merged states are below. */
  lemma {:induction false} FoldLeast<S(!new)>(join: (S, S) -> S, ok: S -> bool, p: Plan<S>, bound: S)
    requires Joins(join, ok) && (forall x :: x in States(p) ==> ok(x)) && ok(bound)
    requires forall x :: x in States(p) ==> Below(join, x, bound)
    ensures Below(join, Fold(join, p), bound)
  {
    if p.Merge? {
      FoldOk(join, ok, p.left);
      FoldOk(join, ok, p.right);
      FoldLeast(join, ok, p.left, bound);
      FoldLeast(join, ok, p.right, bound);
      var l, r := Fold(join, p.left), Fold(join, p.right);
      assert join(l, join(r, bound)) == join(join(l, r), bound);
    }
  }

  /** Any two ways of merging the same states, in any order and grouping and with any
      repetitions, agree. */
  lemma Converge<S(!new)>(join: (S, S) -> S, ok: S -> bool, p: Plan<S>, q: Plan<S>)
    requires Joins(join, ok) && States(p) == States(q) && forall s :: s in States(p) ==> ok(s)
    ensures Fold(join, p) == Fold(join, q)
  {
    FoldOk(join, ok, p);
    FoldOk(join, ok, q);
    forall s | s in States(p)
      ensures Below(join, s, Fold(join, p)) && Below(join, s, Fold(join, q))
    {
      FoldAbove(join, ok, p, s);
      FoldAbove(join, ok, q, s);
    }
    FoldLeast(join, ok, p, Fold(join, q));
    FoldLeast(join, ok, q, Fold(join, p));
  }
}
