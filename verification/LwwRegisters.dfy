/** Last-writer-wins: the runtime's register and the spreadsheet's cell updates, both decided by
    timestamp and then by writer name. */
module LwwRegisters {
  import opened Wrappers
  import opened Semilattice

  // ----- names are ordered character by character -----

  predicate NameLess(a: string, b: string) {
    if b == [] then false
    else if a == [] then true
    else a[0] < b[0] || (a[0] == b[0] && NameLess(a[1..], b[1..]))
  }

  lemma {:induction false} NameTotal(a: string, b: string)
    ensures a == b || NameLess(a, b) || NameLess(b, a)
    ensures !(NameLess(a, b) && NameLess(b, a)) && !NameLess(a, a)
  {
    if a != [] {
      NameTotal(a[1..], if b == [] then [] else b[1..]);
      if b != [] && a[0] == b[0] && a[1..] == b[1..] {
        assert a == [a[0]] + a[1..] == b;
      }
    }
  }

  lemma {:induction false} NameTransitive(a: string, b: string, c: string)
    requires NameLess(a, b) && NameLess(b, c)
    ensures NameLess(a, c)
  {
    if a != [] && a[0] == b[0] == c[0] {
      NameTransitive(a[1..], b[1..], c[1..]);
    }
  }

  /** A write: what was written, when, and by whom. */
  datatype Write<V> = Write(value: V, ts: real, origin: string)

  /** a was written before b. */
  predicate Before<V>(a: Write<V>, b: Write<V>) {
    a.ts < b.ts || (a.ts == b.ts && NameLess(a.origin, b.origin))
  }

  predicate SameStamp<V>(a: Write<V>, b: Write<V>) {
    a.ts == b.ts && a.origin == b.origin
  }

  lemma BeforeTotal<V>(a: Write<V>, b: Write<V>)
    ensures SameStamp(a, b) || Before(a, b) || Before(b, a)
    ensures !(Before(a, b) && Before(b, a))
    ensures SameStamp(a, b) ==> !Before(a, b)
  {
    NameTotal(a.origin, b.origin);
  }

  lemma BeforeTransitive<V>(a: Write<V>, b: Write<V>, c: Write<V>)
    requires Before(a, b) && Before(b, c)
    ensures Before(a, c)
  {
    if a.ts == b.ts == c.ts {
      NameTransitive(a.origin, b.origin, c.origin);
    }
  }

  /** Equal stamps mean equal writes: no writer writes two values at one time. */
  ghost predicate Unambiguous<V>(ws: set<Write<V>>) {
    forall a, b :: a in ws && b in ws && SameStamp(a, b) ==> a == b
  }

  // ----- registers -----

  /** The merged register: b only if it is newer. */
  function Newer<V>(a: Write<V>, b: Write<V>): Write<V> {
    if b.ts > a.ts then b
    else if b.ts == a.ts && NameLess(a.origin, b.origin) then b
    else a
  }

  /** The merged register is one of the two, and neither of them was written after it. */
  lemma NewerIsNewest<V>(a: Write<V>, b: Write<V>)
    ensures Newer(a, b) == a || Newer(a, b) == b
    ensures !Before(Newer(a, b), a) && !Before(Newer(a, b), b)
    ensures SameStamp(a, b) ==> Newer(a, b) == a
  {
    BeforeTotal(a, b);
    BeforeTotal(a, a);
    BeforeTotal(b, b);
  }

  lemma NotBefore<V>(a: Write<V>, b: Write<V>, c: Write<V>)
    requires !Before(a, b) && !Before(b, c)
    ensures !Before(a, c)
  {
    BeforeTotal(a, b);
    BeforeTotal(b, c);
    if Before(a, c) {
      if Before(b, a) {
        BeforeTransitive(b, a, c);
      }
    }
  }

  /** However registers are merged, the result is one of the writes that went in, and none of them is
      after it. */
  lemma {:induction false} MergesKeepNewest<V(!new)>(p: Plan<Write<V>>)
    ensures Fold(Newer<V>, p) in States(p)
    ensures forall w :: w in States(p) ==> !Before(Fold(Newer<V>, p), w)
  {
    match p
    case State(s) => BeforeTotal(s, s);
    case Merge(left, right) =>
      MergesKeepNewest(left);
      MergesKeepNewest(right);
      var l, r := Fold(Newer<V>, left), Fold(Newer<V>, right);
      NewerIsNewest(l, r);
      forall w | w in States(p)
        ensures !Before(Newer(l, r), w)
      {
        NotBefore(Newer(l, r), if w in States(left) then l else r, w);
      }
  }

  /** Merging two registers gives the same either way round exactly when equal stamps mean equal
      values. */
  lemma NewerCommutes<V>(a: Write<V>, b: Write<V>)
    ensures Newer(a, b) == Newer(b, a) <==> (SameStamp(a, b) ==> a == b)
  {
    BeforeTotal(a, b);
  }

  lemma NewerAssociates<V>(a: Write<V>, b: Write<V>, c: Write<V>)
    ensures Newer(a, Newer(b, c)) == Newer(Newer(a, b), c)
  {
    BeforeTotal(a, b);
    BeforeTotal(b, c);
    BeforeTotal(a, c);
    if Before(a, b) && Before(b, c) {
      BeforeTransitive(a, b, c);
    }
    if Before(a, c) && !Before(b, c) && !Before(a, b) {
      if Before(b, a) {
        BeforeTransitive(b, a, c);
      }
    }
  }

  lemma RegistersJoin<V(!new)>(ws: set<Write<V>>)
    requires Unambiguous(ws)
    ensures Joins(Newer<V>, w => w in ws)
  {
    forall a, b | a in ws && b in ws
      ensures Newer(a, b) == Newer(b, a)
    {
      NewerCommutes(a, b);
    }
    forall a: Write<V>, b: Write<V>, c: Write<V>
      ensures Newer(a, Newer(b, c)) == Newer(Newer(a, b), c)
    {
      NewerAssociates(a, b, c);
    }
    forall a: Write<V>
      ensures Newer(a, a) == a
    {
    }
  }

  /** Replicas that merge the same register states, however often and in whatever order, agree. */
  lemma RegistersConverge<V(!new)>(p: Plan<Write<V>>, q: Plan<Write<V>>)
    requires States(p) == States(q) && Unambiguous(States(p))
    ensures Fold(Newer<V>, p) == Fold(Newer<V>, q)
  {
    RegistersJoin(States(p));
    Converge(Newer<V>, w => w in States(p), p, q);
  }

  /** Fresh registers are all written at time zero, so two of one replica with different initial
      values are the case in which the order of merging shows. */
  lemma FreshRegistersClash<V>(v: V, w: V, rid: string)
    requires v != w
    ensures Newer(Write(v, 0.0, rid), Write(w, 0.0, rid)) != Newer(Write(w, 0.0, rid), Write(v, 0.0, rid))
  {
    NewerCommutes(Write(v, 0.0, rid), Write(w, 0.0, rid));
  }

  class LwwRegister<V> {
    var value: V
    var ts: real
    var replica: string

    function State(): Write<V>
      reads this
    {
      Write(value, ts, replica)
    }

    constructor (initial: V, rid: string)
      ensures State() == Write(initial, 0.0, rid)
    {
      value, ts, replica := initial, 0.0, rid;
    }

    method Set(v: V, now: real, rid: string)
      modifies this
      ensures State() == Write(v, now, rid)
    {
      value := v;
      ts := now;
      replica := rid;
    }

    /** A new register with the newer state; both inputs stay as they are. */
    static method Merge(a: LwwRegister<V>, b: LwwRegister<V>) returns (out: LwwRegister<V>)
      ensures fresh(out) && out.State() == Newer(a.State(), b.State())
      ensures out.State() in {a.State(), b.State()}
      ensures !Before(out.State(), a.State()) && !Before(out.State(), b.State())
    {
      var w := a;
      if b.ts > a.ts {
        w := b;
      } else if b.ts == a.ts && NameLess(a.replica, b.replica) {
        w := b;
      }
      NewerIsNewest(a.State(), b.State());
      out := new LwwRegister(w.value, w.replica);
      out.Set(w.value, w.ts, w.replica);
    }
  }

  // ----- cell updates delivered in any order -----

  predicate LwwWins<V>(incoming: Write<V>, current: Option<Write<V>>) {
    match current
    case None => true
    case Some(c) => if incoming.ts != c.ts then incoming.ts > c.ts else NameLess(c.origin, incoming.origin)
  }

  function Deliver<V>(us: seq<Write<V>>): Option<Write<V>> {
    if us == [] then None
    else
      var current := Deliver(us[..|us| - 1]);
      var u := us[|us| - 1];
      if LwwWins(u, current) then Some(u) else current
  }

  /** What is kept is one of the updates and no update is newer. */
  lemma {:induction false} DeliverKeepsNewest<V>(us: seq<Write<V>>)
    requires us != []
    ensures Deliver(us).Some? && Deliver(us).value in us
    ensures forall u :: u in us ==> !Before(Deliver(us).value, u)
  {
    var front, u := us[..|us| - 1], us[|us| - 1];
    assert us == front + [u];
    BeforeTotal(u, u);
    if front != [] {
      DeliverKeepsNewest(front);
      var c := Deliver(front).value;
      BeforeTotal(c, u);
      if LwwWins(u, Some(c)) {
        forall x | x in front
          ensures !Before(u, x)
        {
          if Before(u, x) {
            BeforeTransitive(c, u, x);
          }
        }
      }
    }
  }

  /** Any two deliveries of the same updates, in any order and with any repetitions, leave a cell
      with the same content. */
  lemma DeliveryOrder<V>(us: seq<Write<V>>, vs: seq<Write<V>>, ws: set<Write<V>>)
    requires Unambiguous(ws) && (forall u :: u in us <==> u in ws) && (forall v :: v in vs <==> v in ws)
    ensures Deliver(us) == Deliver(vs)
  {
    assert us == [] <==> vs == [] by {
      if us != [] {
        assert us[0] in vs;
      }
      if vs != [] {
        assert vs[0] in us;
      }
    }
    if us != [] {
      DeliverKeepsNewest(us);
      DeliverKeepsNewest(vs);
      BeforeTotal(Deliver(us).value, Deliver(vs).value);
    }
  }
}
