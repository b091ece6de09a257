module Wrappers {
  datatype Option<+T> = None | Some(value: T)
}

/** Finite runs of a state machine under a chosen schedule of moves. */
module Schedules {
  import opened Wrappers

  /** The state after taking the moves in order, or None when one of them is not possible. */
  function Run<S, M>(next: (S, M) -> Option<S>, s: S, moves: seq<M>): Option<S>
    decreases |moves|
  {
    if moves == [] then Some(s)
    else match next(s, moves[0])
         case None => None
         case Some(t) => Run(next, t, moves[1..])
  }

  ghost predicate Reachable<S, M(!new)>(next: (S, M) -> Option<S>, s: S, t: S) {
    exists moves :: Run(next, s, moves) == Some(t)
  }

  lemma RunFirst<S, M>(next: (S, M) -> Option<S>, s: S, m: M, t: S, moves: seq<M>)
    requires next(s, m) == Some(t)
    ensures Run(next, s, [m] + moves) == Run(next, t, moves)
  {
    assert ([m] + moves)[1..] == moves;
  }

  lemma RunThree<S, M>(next: (S, M) -> Option<S>, s: S, a: M, t: S, b: M, u: S, c: M, v: S)
    requires next(s, a) == Some(t) && next(t, b) == Some(u) && next(u, c) == Some(v)
    ensures Run(next, s, [a, b, c]) == Some(v)
  {
    assert [a, b, c][1..] == [b, c] && [b, c][1..] == [c];
    assert Run(next, u, [c]) == Some(v);
  }

  lemma {:induction false} RunAppend<S, M>(next: (S, M) -> Option<S>, s: S, first: seq<M>, t: S, rest: seq<M>)
    requires Run(next, s, first) == Some(t)
    ensures Run(next, s, first + rest) == Run(next, t, rest)
    decreases |first|
  {
    if first == [] {
      assert first + rest == rest;
    } else {
      RunAppend(next, next(s, first[0]).value, first[1..], t, rest);
      assert (first + rest)[1..] == first[1..] + rest;
    }
  }

  lemma RunLast<S, M>(next: (S, M) -> Option<S>, s: S, first: seq<M>, t: S, m: M, u: S)
    requires Run(next, s, first) == Some(t) && next(t, m) == Some(u)
    ensures Run(next, s, first + [m]) == Some(u)
  {
    RunAppend(next, s, first, t, [m]);
    assert Run(next, u, []) == Some(u);
  }

  /** What every move keeps holds in every reachable state. */
  lemma {:induction false} Invariant<S(!new), M(!new)>(next: (S, M) -> Option<S>, inv: S -> bool, s: S, moves: seq<M>)
    requires inv(s) && Run(next, s, moves).Some?
    requires forall t, m :: inv(t) && next(t, m).Some? ==> inv(next(t, m).value)
    ensures inv(Run(next, s, moves).value)
    decreases |moves|
  {
    if moves != [] {
      Invariant(next, inv, next(s, moves[0]).value, moves[1..]);
    }
  }
}
