/** A cycle of first and second forks lets fair runs go on for ever: once everybody outside it has
    finished, its philosophers all take their first forks, are all denied the second, and all give
    back, with every message delivered and nobody fed. */
module PhilosopherCycles {
  import opened Wrappers
  import opened Schedules
  import opened Philosophers
  import opened PhilosopherRuns
  import opened PhilosopherFairness
  import opened PhilosopherRounds
  import opened PhilosopherSpins

  // ----- delivering one message to each in turn -----

  function Sent(outs: seq<multiset<Message>>): multiset<Message> {
    if outs == [] then multiset{} else outs[0] + Sent(outs[1..])
  }

  function Bag(ms: seq<Message>): multiset<Message> {
    if ms == [] then multiset{} else multiset{ms[0]} + Bag(ms[1..])
  }

  /** Delivering m changes the fields of v to those of v' and sends out. */
  ghost predicate Moves(v: World, m: Message, v': World, out: multiset<Message>) {
    Addressed(v, m) && Handle(v, m).forks == v'.forks && Handle(v, m).phils == v'.phils && Outbox(v, m) == out
  }

  lemma {:induction false} Sweep(fields: seq<World>, ins: seq<Message>, outs: seq<multiset<Message>>,
                                 rest: multiset<Message>)
    requires |fields| == |ins| + 1 == |outs| + 1
    requires forall k :: 0 <= k < |ins| ==> Moves(fields[k], ins[k], fields[k + 1], outs[k])
    ensures Run(Deliver, fields[0].(mail := rest + Bag(ins)), ins) == Some(fields[|ins|].(mail := rest + Sent(outs)))
    decreases |ins|
  {
    if ins == [] {
    } else {
      var m, more := ins[0], Bag(ins[1..]);
      assert Moves(fields[0], m, fields[1], outs[0]);
      assert rest + (multiset{m} + more) == rest + more + multiset{m};
      DeliverFrom(fields[0], rest + more, m, fields[1], outs[0]);
      assert rest + more + outs[0] == rest + outs[0] + more;
      forall k | 0 <= k < |ins[1..]|
        ensures Moves(fields[1..][k], ins[1..][k], fields[1..][k + 1], outs[1..][k])
      {
        assert Moves(fields[k + 1], ins[k + 1], fields[k + 2], outs[k + 1]);
      }
      Sweep(fields[1..], ins[1..], outs[1..], rest + outs[0]);
      assert rest + outs[0] + Sent(outs[1..]) == rest + (outs[0] + Sent(outs[1..]));
    }
  }

  lemma {:induction false} SentSingles(ms: seq<Message>, outs: seq<multiset<Message>>)
    requires |outs| == |ms| && forall k :: 0 <= k < |ms| ==> outs[k] == multiset{ms[k]}
    ensures Sent(outs) == Bag(ms)
    decreases |ms|
  {
    if ms != [] {
      SentSingles(ms[1..], outs[1..]);
    }
  }

  lemma PairFirst(m: Message, n: Message, ms: multiset<Message>, ns: multiset<Message>)
    ensures multiset{m, n} + (ms + ns) == (multiset{m} + ms) + (multiset{n} + ns)
  {
  }

  lemma {:induction false} SentPairs(ms: seq<Message>, ns: seq<Message>, outs: seq<multiset<Message>>)
    requires |outs| == |ms| == |ns| && forall k :: 0 <= k < |ms| ==> outs[k] == multiset{ms[k], ns[k]}
    ensures Sent(outs) == Bag(ms) + Bag(ns)
    decreases |ms|
  {
    if ms != [] {
      SentPairs(ms[1..], ns[1..], outs[1..]);
      PairFirst(ms[0], ns[0], Bag(ms[1..]), Bag(ns[1..]));
    }
  }

  /** A sweep in which each handler answers with one message. */
  lemma SweepOne(fields: seq<World>, ins: seq<Message>, answers: seq<Message>, rest: multiset<Message>)
    requires |fields| == |ins| + 1 == |answers| + 1
    requires forall k :: 0 <= k < |ins| ==> Moves(fields[k], ins[k], fields[k + 1], multiset{answers[k]})
    ensures Run(Deliver, fields[0].(mail := rest + Bag(ins)), ins)
            == Some(fields[|ins|].(mail := rest + Bag(answers)))
  {
    var outs := seq(|answers|, k requires 0 <= k < |answers| => multiset{answers[k]});
    Sweep(fields, ins, outs, rest);
    SentSingles(answers, outs);
  }

  // ----- the messages of a ring -----

  function Controls(w: World, c: seq<nat>, ph: Phase): (ms: seq<Message>)
    requires ph != Done && forall k :: 0 <= k < |c| ==> c[k] < |w.phils|
    ensures |ms| == |c| && forall k :: 0 <= k < |c| ==> ms[k] == Control(c[k], w.phils[c[k]], ph)
  {
    seq(|c|, k requires 0 <= k < |c| => Control(c[k], w.phils[c[k]], ph))
  }

  function Returns(w: World, c: seq<nat>): (ms: seq<Message>)
    requires forall k :: 0 <= k < |c| ==> c[k] < |w.phils|
    ensures |ms| == |c| && forall k :: 0 <= k < |c| ==> ms[k] == Release(w.phils[c[k]].lo, w.phils[c[k]].id, c[k])
  {
    seq(|c|, k requires 0 <= k < |c| => Release(w.phils[c[k]].lo, w.phils[c[k]].id, c[k]))
  }

  ghost predicate Distinct(c: seq<nat>) {
    forall k, l :: 0 <= k < l < |c| ==> c[k] != c[l]
  }

  /** A cycle in which no first fork comes twice, all of them free and nobody holding any. */
  ghost predicate Ring(w: World, c: seq<nat>) {
    && Wired(w) && IsCycle(w, c) && Distinct(c)
    && (forall k, l :: 0 <= k < l < |c| ==> w.phils[c[k]].lo != w.phils[c[l]].lo)
    && (forall k :: 0 <= k < |c| ==> w.phils[c[k]].state == 0 && w.forks[w.phils[c[k]].lo] == 0)
  }

  /** Somebody of d starts with fork f. */
  ghost predicate First(w: World, d: seq<nat>, f: nat, i: nat) {
    i in d && i < |w.phils| && w.phils[i].lo == f
  }

  ghost function Marked(w: World, d: seq<nat>, f: nat): int
    requires f < |w.forks|
  {
    if i: nat :| First(w, d, f, i) then w.phils[i].id else w.forks[f]
  }

  /** The forks when those of d have their first fork. */
  ghost function Taken(w: World, d: seq<nat>): World {
    w.(forks := seq(|w.forks|, f requires 0 <= f < |w.forks| => Marked(w, d, f)))
  }

  /** The philosophers when those of d have answered the first grant. */
  ghost function Seated(w: World, d: seq<nat>): World {
    w.(phils := seq(|w.phils|, j requires 0 <= j < |w.phils| =>
         if j in d then w.phils[j].(state := 1) else w.phils[j]))
  }

  lemma MarkedIs(w: World, c: seq<nat>, d: seq<nat>, f: nat, i: nat)
    requires Ring(w, c) && f < |w.forks| && First(w, d, f, i) && forall j :: j in d ==> j in c
    ensures Marked(w, d, f) == w.phils[i].id
  {
    forall j: nat | First(w, d, f, j)
      ensures j == i
    {
      OneFirst(w, c, i, j);
    }
  }

  lemma OneFirst(w: World, c: seq<nat>, i: nat, j: nat)
    requires Ring(w, c) && i in c && j in c && w.phils[i].lo == w.phils[j].lo
    ensures i == j
  {
    var k :| 0 <= k < |c| && c[k] == i;
    var l :| 0 <= l < |c| && c[l] == j;
  }

  /** d without i; both within c. */
  ghost predicate Rest(c: seq<nat>, d: seq<nat>, i: nat, less: seq<nat>) {
    && (forall j: nat :: j in d ==> j in c)
    && (forall j: nat :: j in less <==> j in d && j != i)
    && i in d
  }

  lemma OneMoreTaken(w: World, c: seq<nat>, d: seq<nat>, i: nat, less: seq<nat>)
    requires Ring(w, c) && Rest(c, d, i, less)
    ensures i < |w.phils| && w.phils[i].lo < |w.forks|
    ensures Taken(w, less).forks[w.phils[i].lo] == 0 && Taken(w, d).forks[w.phils[i].lo] == w.phils[i].id
    ensures Taken(w, d).forks == Taken(w, less).forks[w.phils[i].lo := w.phils[i].id]
  {
    var k :| 0 <= k < |c| && c[k] == i;
    var g := w.phils[i].lo;
    assert First(w, d, g, i);
    MarkedIs(w, c, d, g, i);
    if j: nat :| First(w, less, g, j) {
      OneFirst(w, c, i, j);
    }
    forall f | 0 <= f < |w.forks| && f != g
      ensures Marked(w, d, f) == Marked(w, less, f)
    {
      OtherMarked(w, c, d, i, less, f);
    }
  }

  lemma OtherMarked(w: World, c: seq<nat>, d: seq<nat>, i: nat, less: seq<nat>, f: nat)
    requires Ring(w, c) && Rest(c, d, i, less) && i < |w.phils| && f < |w.forks| && f != w.phils[i].lo
    ensures Marked(w, d, f) == Marked(w, less, f)
  {
    assert forall j: nat :: First(w, d, f, j) <==> First(w, less, f, j);
    if j: nat :| First(w, d, f, j) {
      MarkedIs(w, c, d, f, j);
      MarkedIs(w, c, less, f, j);
    }
  }

  lemma OneMoreSeated(w: World, c: seq<nat>, d: seq<nat>, i: nat, less: seq<nat>)
    requires Ring(w, c) && Rest(c, d, i, less)
    ensures i < |w.phils| && Seated(w, less).phils[i] == w.phils[i] && w.phils[i].state == 0
    ensures Seated(w, d).phils == Seated(w, less).phils[i := w.phils[i].(state := 1)]
    ensures Seated(w, less).phils == Seated(w, d).phils[i := w.phils[i]]
  {
    var k :| 0 <= k < |c| && c[k] == i;
  }

  lemma SplitAt(c: seq<nat>, k: nat, j: nat)
    requires Distinct(c) && k < |c|
    ensures j in c[..k] <==> j in c[..k + 1] && j != c[k]
    ensures j in c[k + 1..] <==> j in c[k..] && j != c[k]
    ensures j in c[..k + 1] || j in c[k..] ==> j in c
  {
    assert c[..k + 1] == c[..k] + [c[k]];
    assert c[k..] == [c[k]] + c[k + 1..];
  }

  lemma PrefixRest(c: seq<nat>, k: nat)
    requires Distinct(c) && k < |c|
    ensures Rest(c, c[..k + 1], c[k], c[..k]) && Rest(c, c[k..], c[k], c[k + 1..])
  {
    forall j: nat
      ensures j in c[..k] <==> j in c[..k + 1] && j != c[k]
      ensures j in c[k + 1..] <==> j in c[k..] && j != c[k]
      ensures j in c[..k + 1] || j in c[k..] ==> j in c
    {
      SplitAt(c, k, j);
    }
    assert c[..k + 1][k] == c[k] && c[k..][0] == c[k];
  }

  // ----- the six sweeps of a round trip -----

  /** All of c have their first fork, those of d have answered its grant. */
  ghost function Both(w: World, c: seq<nat>, d: seq<nat>): World {
    Taken(w, c).(phils := Seated(w, d).phils)
  }

  lemma NobodyYet(w: World)
    ensures Taken(w, []).forks == w.forks && Seated(w, []).phils == w.phils
  {
  }

  lemma Asks(w: World, c: seq<nat>, k: nat)
    requires Ring(w, c) && k < |c|
    ensures Moves(w, Think(c[k]), w, multiset{Control(c[k], w.phils[c[k]], AskingLo)})
  {
  }

  lemma Takes(w: World, c: seq<nat>, k: nat)
    requires Ring(w, c) && k < |c|
    ensures Moves(Taken(w, c[..k]), Control(c[k], w.phils[c[k]], AskingLo), Taken(w, c[..k + 1]),
                  multiset{Control(c[k], w.phils[c[k]], GrantedLo)})
  {
    PrefixRest(c, k);
    OneMoreTaken(w, c, c[..k + 1], c[k], c[..k]);
  }

  lemma Sits(w: World, c: seq<nat>, k: nat)
    requires Ring(w, c) && k < |c|
    ensures Moves(Both(w, c, c[..k]), Control(c[k], w.phils[c[k]], GrantedLo), Both(w, c, c[..k + 1]),
                  multiset{Control(c[k], w.phils[c[k]], AskingHi)})
  {
    PrefixRest(c, k);
    OneMoreSeated(w, c, c[..k + 1], c[k], c[..k]);
  }

  lemma DeniedMove(v: World, i: nat)
    requires i < |v.phils| && v.phils[i].hi < |v.forks| && v.forks[v.phils[i].hi] != 0
    ensures Moves(v, Acquire(v.phils[i].hi, v.phils[i].id, i), v, multiset{Denied(i, v.phils[i].id)})
  {
  }

  lemma BackMove(v: World, i: nat, v': World)
    requires i < |v.phils| && v.phils[i].state == 1
    requires v'.forks == v.forks && v'.phils == v.phils[i := v.phils[i].(state := 0)]
    ensures Moves(v, Denied(i, v.phils[i].id), v', multiset{Release(v.phils[i].lo, v.phils[i].id, i), Think(i)})
  {
  }

  lemma NextTaken(w: World, c: seq<nat>, k: nat)
    requires Ring(w, c) && k < |c|
    ensures w.phils[c[k]].hi < |w.forks| && Taken(w, c).forks[w.phils[c[k]].hi] != 0
  {
    var next := Following(c, k);
    assert First(w, c, w.phils[c[k]].hi, next);
    MarkedIs(w, c, c, w.phils[c[k]].hi, next);
  }

  lemma IsDenied(w: World, c: seq<nat>, k: nat)
    requires Ring(w, c) && k < |c|
    ensures Moves(Both(w, c, c), Control(c[k], w.phils[c[k]], AskingHi), Both(w, c, c),
                  multiset{Control(c[k], w.phils[c[k]], DeniedHi)})
  {
    NextTaken(w, c, k);
    DeniedMove(Both(w, c, c), c[k]);
  }

  lemma GoesBack(w: World, c: seq<nat>, k: nat)
    requires Ring(w, c) && k < |c|
    ensures Moves(Both(w, c, c[k..]), Control(c[k], w.phils[c[k]], DeniedHi), Both(w, c, c[k + 1..]),
                  multiset{Returns(w, c)[k], Think(c[k])})
  {
    PrefixRest(c, k);
    OneMoreSeated(w, c, c[k..], c[k], c[k + 1..]);
    BackMove(Both(w, c, c[k..]), c[k], Both(w, c, c[k + 1..]));
  }

  lemma Frees(w: World, c: seq<nat>, k: nat)
    requires Ring(w, c) && k < |c|
    ensures Moves(Taken(w, c[k..]), Returns(w, c)[k], Taken(w, c[k + 1..]), multiset{})
  {
    PrefixRest(c, k);
    OneMoreTaken(w, c, c[k..], c[k], c[k + 1..]);
  }

  lemma AllThink(w: World, c: seq<nat>, rest: multiset<Message>)
    requires Ring(w, c)
    ensures Run(Deliver, w.(mail := rest + Bag(Controls(w, c, Thinking))), Controls(w, c, Thinking))
            == Some(w.(mail := rest + Bag(Controls(w, c, AskingLo))))
  {
    var fields := seq(|c| + 1, _ => w);
    var ins, answers := Controls(w, c, Thinking), Controls(w, c, AskingLo);
    forall k | 0 <= k < |c|
      ensures Moves(fields[k], ins[k], fields[k + 1], multiset{answers[k]})
    {
      Asks(w, c, k);
    }
    SweepOne(fields, ins, answers, rest);
  }

  lemma AllTake(w: World, c: seq<nat>, rest: multiset<Message>)
    requires Ring(w, c)
    ensures Run(Deliver, w.(mail := rest + Bag(Controls(w, c, AskingLo))), Controls(w, c, AskingLo))
            == Some(Taken(w, c).(mail := rest + Bag(Controls(w, c, GrantedLo))))
  {
    var fields := seq(|c| + 1, k requires 0 <= k <= |c| => Taken(w, c[..k]));
    var ins, answers := Controls(w, c, AskingLo), Controls(w, c, GrantedLo);
    forall k | 0 <= k < |c|
      ensures Moves(fields[k], ins[k], fields[k + 1], multiset{answers[k]})
    {
      Takes(w, c, k);
    }
    NobodyYet(w);
    assert c[..0] == [] && c[..|c|] == c;
    SweepOne(fields, ins, answers, rest);
  }

  lemma AllSit(w: World, c: seq<nat>, rest: multiset<Message>)
    requires Ring(w, c)
    ensures Run(Deliver, Taken(w, c).(mail := rest + Bag(Controls(w, c, GrantedLo))), Controls(w, c, GrantedLo))
            == Some(Both(w, c, c).(mail := rest + Bag(Controls(w, c, AskingHi))))
  {
    var fields := seq(|c| + 1, k requires 0 <= k <= |c| => Both(w, c, c[..k]));
    var ins, answers := Controls(w, c, GrantedLo), Controls(w, c, AskingHi);
    forall k | 0 <= k < |c|
      ensures Moves(fields[k], ins[k], fields[k + 1], multiset{answers[k]})
    {
      Sits(w, c, k);
    }
    NobodyYet(w);
    assert c[..0] == [] && c[..|c|] == c;
    SweepOne(fields, ins, answers, rest);
  }

  lemma AllDenied(w: World, c: seq<nat>, rest: multiset<Message>)
    requires Ring(w, c)
    ensures Run(Deliver, Both(w, c, c).(mail := rest + Bag(Controls(w, c, AskingHi))), Controls(w, c, AskingHi))
            == Some(Both(w, c, c).(mail := rest + Bag(Controls(w, c, DeniedHi))))
  {
    var fields := seq(|c| + 1, _ => Both(w, c, c));
    var ins, answers := Controls(w, c, AskingHi), Controls(w, c, DeniedHi);
    forall k | 0 <= k < |c|
      ensures Moves(fields[k], ins[k], fields[k + 1], multiset{answers[k]})
    {
      IsDenied(w, c, k);
    }
    SweepOne(fields, ins, answers, rest);
  }

  lemma AllReturn(w: World, c: seq<nat>, rest: multiset<Message>)
    requires Ring(w, c)
    ensures Run(Deliver, Both(w, c, c).(mail := rest + Bag(Controls(w, c, DeniedHi))), Controls(w, c, DeniedHi))
            == Some(Taken(w, c).(mail := rest + (Bag(Returns(w, c)) + Bag(Controls(w, c, Thinking)))))
  {
    var fields := seq(|c| + 1, k requires 0 <= k <= |c| => Both(w, c, c[k..]));
    var ins, backs, thinks := Controls(w, c, DeniedHi), Returns(w, c), Controls(w, c, Thinking);
    var outs := seq(|c|, k requires 0 <= k < |c| => multiset{backs[k], thinks[k]});
    forall k | 0 <= k < |c|
      ensures Moves(fields[k], ins[k], fields[k + 1], outs[k])
    {
      GoesBack(w, c, k);
    }
    NobodyYet(w);
    assert c[0..] == c && c[|c|..] == [];
    Sweep(fields, ins, outs, rest);
    SentPairs(backs, thinks, outs);
  }

  lemma {:induction false} SentNothing(outs: seq<multiset<Message>>)
    requires forall k :: 0 <= k < |outs| ==> outs[k] == multiset{}
    ensures Sent(outs) == multiset{}
    decreases |outs|
  {
    if outs != [] {
      SentNothing(outs[1..]);
    }
  }

  lemma AllFree(w: World, c: seq<nat>, rest: multiset<Message>)
    requires Ring(w, c)
    ensures Run(Deliver, Taken(w, c).(mail := rest + Bag(Returns(w, c))), Returns(w, c)) == Some(w.(mail := rest))
  {
    var fields := seq(|c| + 1, k requires 0 <= k <= |c| => Taken(w, c[k..]));
    var ins, outs := Returns(w, c), seq(|c|, _ => multiset{});
    forall k | 0 <= k < |c|
      ensures Moves(fields[k], ins[k], fields[k + 1], outs[k])
    {
      Frees(w, c, k);
    }
    NobodyYet(w);
    assert c[0..] == c && c[|c|..] == [];
    Sweep(fields, ins, outs, rest);
    SentNothing(outs);
    assert rest + Sent(outs) == rest;
  }

  lemma TakeAll(w: World, c: seq<nat>, rest: multiset<Message>) returns (s: seq<Message>)
    requires Ring(w, c)
    ensures Controls(w, c, Thinking) <= s
    ensures Run(Deliver, w.(mail := rest + Bag(Controls(w, c, Thinking))), s)
            == Some(Both(w, c, c).(mail := rest + Bag(Controls(w, c, AskingHi))))
  {
    var start := w.(mail := rest + Bag(Controls(w, c, Thinking)));
    var asked := w.(mail := rest + Bag(Controls(w, c, AskingLo)));
    var granted := Taken(w, c).(mail := rest + Bag(Controls(w, c, GrantedLo)));
    AllThink(w, c, rest);
    AllTake(w, c, rest);
    AllSit(w, c, rest);
    RunAppend(Deliver, asked, Controls(w, c, AskingLo), granted, Controls(w, c, GrantedLo));
    s := Controls(w, c, AskingLo) + Controls(w, c, GrantedLo);
    RunAppend(Deliver, start, Controls(w, c, Thinking), asked, s);
    s := Controls(w, c, Thinking) + s;
  }

  lemma ReturnAll(w: World, c: seq<nat>, rest: multiset<Message>) returns (s: seq<Message>)
    requires Ring(w, c)
    ensures Run(Deliver, Both(w, c, c).(mail := rest + Bag(Controls(w, c, AskingHi))), s)
            == Some(w.(mail := rest + Bag(Controls(w, c, Thinking))))
  {
    var thinks := Bag(Controls(w, c, Thinking));
    var asked := Both(w, c, c).(mail := rest + Bag(Controls(w, c, AskingHi)));
    var denied := Both(w, c, c).(mail := rest + Bag(Controls(w, c, DeniedHi)));
    var back := Taken(w, c).(mail := rest + (Bag(Returns(w, c)) + thinks));
    AllDenied(w, c, rest);
    AllReturn(w, c, rest);
    AllFree(w, c, rest + thinks);
    assert rest + (Bag(Returns(w, c)) + thinks) == rest + thinks + Bag(Returns(w, c));
    RunAppend(Deliver, denied, Controls(w, c, DeniedHi), back, Returns(w, c));
    s := Controls(w, c, DeniedHi) + Returns(w, c);
    RunAppend(Deliver, asked, Controls(w, c, AskingHi), denied, s);
    s := Controls(w, c, AskingHi) + s;
  }

  /** Everybody on a ring thinks, takes the first fork, is denied the second and gives back; every
      think in flight is delivered, and everything is as before. */
  lemma RoundTrip(w: World, c: seq<nat>, rest: multiset<Message>) returns (s: seq<Message>)
    requires Ring(w, c) && w.mail == rest + Bag(Controls(w, c, Thinking))
    ensures Run(Deliver, w, s) == Some(w) && Controls(w, c, Thinking) <= s
  {
    assert w.(mail := rest + Bag(Controls(w, c, Thinking))) == w;
    var up := TakeAll(w, c, rest);
    var down := ReturnAll(w, c, rest);
    RunAppend(Deliver, w, up, Both(w, c, c).(mail := rest + Bag(Controls(w, c, AskingHi))), down);
    s := up + down;
  }

  // ----- finishing everybody outside the cycle -----

  /** Each of c is the same in both states. */
  ghost predicate AllSame(w: World, phs: seq<Phase>, w': World, phs': seq<Phase>, c: seq<nat>) {
    && |w.phils| == |phs| == |w'.phils| == |phs'|
    && forall i: nat :: i in c && i < |phs| ==> SameFor(w, phs, w', phs', i)
  }

  lemma AllSameStart(w: World, phs: seq<Phase>, w': World, phs': seq<Phase>, w'': World, phs'': seq<Phase>, a: nat,
                     c: seq<nat>)
    requires OthersSame(w, phs, w', phs', a) && a !in c && AllSame(w', phs', w'', phs'', c)
    ensures AllSame(w, phs, w'', phs'', c)
  {
    forall i: nat | i in c && i < |phs|
      ensures SameFor(w, phs, w'', phs'', i)
    {
      assert SameFor(w, phs, w', phs', i) && SameFor(w', phs', w'', phs'', i);
    }
  }

  /** All that those of c have in flight is a think each. */
  ghost predicate Waiting(w: World, c: seq<nat>) {
    forall m :: m in w.mail && Agent(m) in c ==> m.Think?
  }

  lemma StillWaiting(w: World, phs: seq<Phase>, w': World, phs': seq<Phase>, a: nat, c: seq<nat>)
    requires Waiting(w, c) && OthersSame(w, phs, w', phs', a) && a !in c && Account(w', phs')
    ensures Waiting(w', c)
  {
    forall m | m in w'.mail && Agent(m) in c
      ensures m.Think?
    {
      assert Placed(w', phs', m);
      assert SameFor(w, phs, w', phs', Agent(m));
      assert m in w.mail;
    }
  }

  lemma OneAway(w: World, phs: seq<Phase>, m: Message, c: seq<nat>)
    requires Account(w, phs) && m in w.mail && !m.Think? && Waiting(w, c)
    ensures Enabled(w, m) && Agent(m) < |phs| && Agent(m) !in c
    ensures Account(Step(w, m), NextPhases(w, phs, m)) && Waiting(Step(w, m), c)
    ensures OthersSame(w, phs, Step(w, m), NextPhases(w, phs, m), Agent(m))
    ensures 0 <= Total(Step(w, m), NextPhases(w, phs, m), |phs|) < Total(w, phs, |phs|)
  {
    DeliverLowers(w, phs, m);
    assert Placed(w, phs, m);
    StepOthersSame(w, phs, m);
    StillWaiting(w, phs, Step(w, m), NextPhases(w, phs, m), Agent(m), c);
  }

  lemma {:induction false} FinishOthers(w: World, phs: seq<Phase>, c: seq<nat>)
    returns (s: seq<Message>, end: World, phsE: seq<Phase>)
    requires Account(w, phs) && Waiting(w, c)
    ensures Run(Deliver, w, s) == Some(end) && Account(end, phsE) && AllSame(w, phs, end, phsE, c)
    ensures forall m :: m in end.mail ==> m.Think? && m.to in c
    decreases Total(w, phs, |phs|)
  {
    if m :| m in w.mail && !m.Think? {
      OneAway(w, phs, m, c);
      var v, vhs := Step(w, m), NextPhases(w, phs, m);
      s, end, phsE := FinishOthers(v, vhs, c);
      AllSameStart(w, phs, v, vhs, end, phsE, Agent(m), c);
      RunFirst(Deliver, w, m, v, s);
      s := [m] + s;
    } else if m :| m in w.mail && m.to !in c {
      var first, v, vhs := EatLowers(w, phs, m);
      StillWaiting(w, phs, v, vhs, m.to, c);
      s, end, phsE := FinishOthers(v, vhs, c);
      AllSameStart(w, phs, v, vhs, end, phsE, m.to, c);
      RunAppend(Deliver, w, first, v, s);
      s := first + s;
    } else {
      s, end, phsE := [], w, phs;
    }
  }

  // ----- cycles without repetition -----

  ghost predicate FirstsDiffer(w: World, c: seq<nat>) {
    && (forall k :: 0 <= k < |c| ==> c[k] < |w.phils|)
    && (forall k, l :: 0 <= k < l < |c| ==> w.phils[c[k]].lo != w.phils[c[l]].lo)
  }

  lemma ShorterCycle(w: World, c: seq<nat>, k: nat, l: nat)
    requires IsCycle(w, c) && k < l < |c| && w.phils[c[k]].lo == w.phils[c[l]].lo
    ensures IsCycle(w, c[k..l])
  {
    var d := c[k..l];
    forall i | 0 <= i < |d|
      ensures w.phils[d[i]].hi == w.phils[Following(d, i)].lo
    {
      assert Following(c, k + i) == c[k + i + 1];
    }
  }

  lemma {:induction false} SimpleCycle(w: World, c: seq<nat>) returns (d: seq<nat>)
    requires IsCycle(w, c)
    ensures IsCycle(w, d) && FirstsDiffer(w, d)
    decreases |c|
  {
    if FirstsDiffer(w, c) {
      d := c;
    } else {
      var k: nat, l: nat :| k < l < |c| && w.phils[c[k]].lo == w.phils[c[l]].lo;
      ShorterCycle(w, c, k, l);
      d := SimpleCycle(w, c[k..l]);
    }
  }

  // ----- fair runs for ever -----

  /** What is in flight and not delivered is still in flight. */
  lemma {:induction false} Undelivered(w: World, s: seq<Message>, m: Message)
    requires Run(Deliver, w, s).Some? && m in w.mail && m !in s
    ensures m in Run(Deliver, w, s).value.mail
    decreases |s|
  {
    if s != [] {
      StepCount(w, s[0], m);
      Undelivered(Step(w, s[0]), s[1..], m);
    }
  }

  lemma {:induction false} BagOnce(ms: seq<Message>, x: Message)
    requires forall k, l :: 0 <= k < l < |ms| ==> ms[k] != ms[l]
    ensures Bag(ms)[x] == if x in ms then 1 else 0
    decreases |ms|
  {
    if ms != [] {
      BagOnce(ms[1..], x);
      assert ms == [ms[0]] + ms[1..];
    }
  }

  lemma BagWithin(ms: seq<Message>, mail: multiset<Message>)
    requires forall k, l :: 0 <= k < l < |ms| ==> ms[k] != ms[l]
    requires forall x :: x in ms ==> x in mail
    ensures mail == mail - Bag(ms) + Bag(ms)
  {
    forall x
      ensures Bag(ms)[x] <= mail[x]
    {
      BagOnce(ms, x);
    }
  }

  lemma RoundFirst(w: World, s: seq<Message>, v: World, rounds: seq<seq<Message>>, end: World)
    requires Round(w, s) && Run(Deliver, w, s) == Some(v) && FairRun(v, rounds, end)
    ensures FairRun(w, [s] + rounds, end)
  {
    assert ([s] + rounds)[1..] == rounds;
  }

  lemma {:induction false} SameRounds(w: World, s: seq<Message>, n: nat) returns (rounds: seq<seq<Message>>)
    requires Round(w, s) && Run(Deliver, w, s) == Some(w)
    ensures |rounds| == n && FairRun(w, rounds, w)
  {
    if n == 0 {
      rounds := [];
    } else {
      rounds := SameRounds(w, s, n - 1);
      RoundFirst(w, s, w, rounds, w);
      rounds := [s] + rounds;
    }
  }

  /** The state in which only a ring is left, its thinks in flight. */
  lemma RingLeft(w0: World, c: seq<nat>) returns (s: seq<Message>, w: World)
    requires Initial(w0) && IsCycle(w0, c) && FirstsDiffer(w0, c)
    ensures Run(Deliver, w0, s) == Some(w) && Ring(w, c)
    ensures forall m :: m in w.mail <==> m.Think? && m.to in c
  {
    var phs := seq(|w0.phils|, _ => Thinking);
    InitialAccount(w0);
    var phsE;
    s, w, phsE := FinishOthers(w0, phs, c);
    RunKeepsWiring(w0, s);
    OnlyThinks(w, phsE);
    RingStays(w0, phs, w, phsE, c);
  }

  lemma RingStays(w0: World, phs: seq<Phase>, w: World, phsE: seq<Phase>, c: seq<nat>)
    requires Initial(w0) && IsCycle(w0, c) && FirstsDiffer(w0, c) && SameWiring(w0, w) && AllSame(w0, phs, w, phsE, c)
    requires forall f :: 0 <= f < |w.forks| ==> w.forks[f] == 0
    ensures Ring(w, c)
    ensures forall m: Message :: m.Think? && m.to in c ==> m in w.mail
  {
    forall k | 0 <= k < |c|
      ensures w.phils[c[k]].state == 0 && Think(c[k]) in w.mail
    {
      assert SameFor(w0, phs, w, phsE, c[k]);
      assert w0.mail[Think(c[k])] == 1 && Agent(Think(c[k])) == c[k];
    }
    forall k | 0 <= k < |c|
      ensures w.phils[c[k]].hi == w.phils[Following(c, k)].lo
    {
      assert w0.phils[c[k]].hi == w0.phils[Following(c, k)].lo;
    }
  }

  /** From a starting state with a cycle, a fair run of any length with somebody still hungry. */
  lemma CycleRuns(w0: World, n: nat) returns (rounds: seq<seq<Message>>, w: World)
    requires Initial(w0) && Cyclic(w0)
    ensures |rounds| == n + 1 && FairRun(w0, rounds, w) && !Finished(w)
  {
    var c0 :| IsCycle(w0, c0);
    var c := SimpleCycle(w0, c0);
    var first;
    first, w := RingLeft(w0, c);
    var thinks := Controls(w, c, Thinking);
    forall x
      ensures x in thinks <==> x.Think? && x.to in c
    {
      ThinksOf(w, c, x);
    }
    BagWithin(thinks, w.mail);
    var trip := RoundTrip(w, c, w.mail - Bag(thinks));
    RunAppend(Deliver, w0, first, w, trip);
    CoversAll(w0, first, w, thinks, trip);
    rounds := SameRounds(w, trip, n);
    RoundFirst(w0, first + trip, w, rounds, w);
    rounds := [first + trip] + rounds;
    assert thinks[0] in w.mail;
  }

  lemma ThinksOf(w: World, c: seq<nat>, x: Message)
    requires forall k :: 0 <= k < |c| ==> c[k] < |w.phils|
    ensures x in Controls(w, c, Thinking) <==> x.Think? && x.to in c
  {
    var thinks := Controls(w, c, Thinking);
    if x.Think? && x.to in c {
      var k :| 0 <= k < |c| && c[k] == x.to;
      assert thinks[k] == x;
    }
  }

  lemma CoversAll(w0: World, first: seq<Message>, w: World, thinks: seq<Message>, trip: seq<Message>)
    requires Run(Deliver, w0, first) == Some(w) && thinks <= trip && forall m :: m in w.mail ==> m in thinks
    ensures forall m :: m in w.mail ==> m in trip
    ensures forall m :: m in w0.mail ==> m in first + trip
  {
    assert trip == thinks + trip[|thinks|..];
    forall m | m in w0.mail
      ensures m in first + trip
    {
      if m !in first {
        Undelivered(w0, first, m);
      }
    }
  }

  // ----- when fair runs finish -----

  ghost predicate FinishedWithin(w: World, bound: nat) {
    forall rounds, end :: FairRun(w, rounds, end) && |rounds| >= bound ==> Finished(end)
  }

  /** Deliver each of some messages in flight once. */
  lemma {:induction false} DeliverAll(w: World, phs: seq<Phase>, due: set<Message>)
    returns (s: seq<Message>, end: World, phsE: seq<Phase>)
    requires Account(w, phs) && forall m :: m in due ==> m in w.mail
    ensures Run(Deliver, w, s) == Some(end) && Account(end, phsE) && forall m :: m in due ==> m in s
    decreases |due|
  {
    if due == {} {
      s, end, phsE := [], w, phs;
    } else {
      var m :| m in due;
      StepKeepsAccount(w, phs, m);
      forall x | x in due - {m}
        ensures x in Step(w, m).mail
      {
        StepCount(w, m, x);
      }
      s, end, phsE := DeliverAll(Step(w, m), NextPhases(w, phs, m), due - {m});
      RunFirst(Deliver, w, m, Step(w, m), s);
      s := [m] + s;
    }
  }

  lemma RoundExists(w: World) returns (s: seq<Message>, end: World)
    requires Inv(w)
    ensures Round(w, s) && Run(Deliver, w, s) == Some(end) && Inv(end)
  {
    var phs :| Account(w, phs);
    var phsE;
    s, end, phsE := DeliverAll(w, phs, set m | m in w.mail);
  }

  /** There are fair runs of every length. */
  lemma {:induction false} FairRunExists(w: World, n: nat) returns (rounds: seq<seq<Message>>, end: World)
    requires Inv(w)
    ensures |rounds| == n && FairRun(w, rounds, end)
    decreases n
  {
    if n == 0 {
      rounds, end := [], w;
    } else {
      var s, v := RoundExists(w);
      rounds, end := FairRunExists(v, n - 1);
      RoundFirst(w, s, v, rounds, end);
      rounds := [s] + rounds;
    }
  }

  ghost predicate FairlyFinishes(w: World) {
    exists bound: nat :: FinishedWithin(w, bound)
  }

  /** Fair runs finish, within a bound that depends on the table alone, if and only if there is no
      cycle of first and second forks; nine rounds a meal and one more are enough. */
  lemma FairIff(w0: World)
    requires Initial(w0)
    ensures FairlyFinishes(w0) <==> !Cyclic(w0)
    ensures !Cyclic(w0) ==> Left(w0) >= 0 && FinishedWithin(w0, 9 * Left(w0) + 1)
  {
    InitialAccount(w0);
    LeftOfAll(w0, seq(|w0.phils|, _ => Thinking), |w0.phils|);
    if Cyclic(w0) {
      forall bound: nat
        ensures !FinishedWithin(w0, bound)
      {
        var rounds, end := CycleRuns(w0, bound);
      }
    } else {
      forall rounds, end | FairRun(w0, rounds, end) && |rounds| >= 9 * Left(w0) + 1
        ensures Finished(end)
      {
        FairBound(w0, rounds, end);
      }
      assert FinishedWithin(w0, 9 * Left(w0) + 1);
    }
  }

  // ----- two small tables -----

  /** Two philosophers who take the same two forks in opposite order. */
  function Crossed(): World {
    World([0, 0], [Phil(1, 0, 1, 0, 0, 3), Phil(2, 1, 0, 0, 0, 3)], multiset{Think(0), Think(1)})
  }

  lemma CrossedIsInitial()
    ensures Initial(Crossed())
  {
  }

  lemma CrossedRing()
    ensures Ring(Crossed(), [0, 1])
    ensures Controls(Crossed(), [0, 1], Thinking) == [Think(0), Think(1)]
  {
    CrossedIsInitial();
    var w, c: seq<nat> := Crossed(), [0, 1];
    assert c[0] == 0 && c[1] == 1 && w.phils[0] == Phil(1, 0, 1, 0, 0, 3) && w.phils[1] == Phil(2, 1, 0, 0, 0, 3);
  }

  lemma CrossedMail(thinks: seq<Message>)
    requires thinks == [Think(0), Think(1)]
    ensures Crossed().mail == Crossed().mail - Bag(thinks) + Bag(thinks)
    ensures forall m :: m in Crossed().mail ==> m in thinks
  {
    assert thinks[0] == Think(0) && thinks[1] == Think(1);
    BagWithin(thinks, Crossed().mail);
  }

  /** Delivering everything in flight, and what that leads to, can bring its first state back. */
  lemma CrossedSpin() returns (s: seq<Message>)
    ensures Initial(Crossed()) && Cyclic(Crossed())
    ensures Round(Crossed(), s) && Run(Deliver, Crossed(), s) == Some(Crossed())
  {
    var w, c := Crossed(), [0, 1];
    CrossedIsInitial();
    CrossedRing();
    var thinks := Controls(w, c, Thinking);
    CrossedMail(thinks);
    s := RoundTrip(w, c, w.mail - Bag(thinks));
    CoversAll(w, [], w, thinks, s);
    assert IsCycle(w, c);
  }

  /** One philosopher with both forks for itself and two meals to eat. */
  function Lone(): World {
    World([0, 0], [Phil(1, 0, 1, 0, 0, 2)], multiset{Think(0)})
  }

  /** Sharing no fork is not enough for all schedules to end: before its release arrives, it is denied. */
  lemma LoneSpins()
    ensures Initial(Lone()) && !Shares(Lone()) && !Cyclic(Lone())
    ensures !Bounded(Lone()) && FairlyFinishes(Lone())
  {
    OrderedAcyclic(Lone());
    assert Lone().phils[0].target == 2;
    BoundedIff(Lone());
    FairIff(Lone());
  }
}
