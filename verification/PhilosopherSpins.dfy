/** Schedules in any order at all: a philosopher asking for a taken fork can be denied for ever.
    From a starting state the lengths of schedules are bounded only where nobody is ever denied. */
module PhilosopherSpins {
  import opened Wrappers
  import opened Schedules
  import opened Philosophers
  import opened PhilosopherRuns

  // ----- deliveries that lead back to the same state -----

  /** A delivery out of a bag with a known rest. */
  lemma DeliverFrom(w: World, rest: multiset<Message>, m: Message, w': World, out: multiset<Message>)
    requires Addressed(w, m) && Handle(w, m).forks == w'.forks && Handle(w, m).phils == w'.phils && Outbox(w, m) == out
    ensures Deliver(w.(mail := rest + multiset{m}), m) == Some(w'.(mail := rest + out))
  {
    var v := w.(mail := rest + multiset{m});
    assert v.mail - multiset{m} == rest;
    assert Outbox(v, m) == Outbox(w, m);
    assert Handle(v, m) == Handle(w, m).(mail := v.mail);
  }

  lemma DeniedRound(w: World, i: nat)
    requires i < |w.phils| && Think(i) in w.mail
    requires w.phils[i].state == 0 && w.phils[i].lo < |w.forks| && w.forks[w.phils[i].lo] != 0
    ensures var p := w.phils[i];
            Run(Deliver, w, [Think(i), Acquire(p.lo, p.id, i), Denied(i, p.id)]) == Some(w)
  {
    var p := w.phils[i];
    var ask, denied := Acquire(p.lo, p.id, i), Denied(i, p.id);
    var rest := w.mail - multiset{Think(i)};
    var w1, w2 := w.(mail := rest + multiset{ask}), w.(mail := rest + multiset{denied});
    assert w.(mail := rest + multiset{Think(i)}) == w;
    DeliverFrom(w, rest, Think(i), w, multiset{ask});
    DeliverFrom(w, rest, ask, w, multiset{denied});
    DeliverFrom(w, rest, denied, w, multiset{Think(i)});
    RunThree(Deliver, w, Think(i), w1, ask, w2, denied, w);
  }

  /** Philosopher i with its first fork only. */
  function WithFirst(w: World, i: nat): World
    requires i < |w.phils| && w.phils[i].lo < |w.forks|
  {
    var p := w.phils[i];
    w.(forks := w.forks[p.lo := p.id], phils := w.phils[i := p.(state := 1)])
  }

  lemma TakesFirst(w: World, i: nat, rest: multiset<Message>) returns (s: seq<Message>)
    requires i < |w.phils| && w.phils[i].state == 0 && w.phils[i].lo < |w.forks| && w.forks[w.phils[i].lo] == 0
    ensures s != []
    ensures Run(Deliver, w.(mail := rest + multiset{Think(i)}), s)
            == Some(WithFirst(w, i).(mail := rest + multiset{Acquire(w.phils[i].hi, w.phils[i].id, i)}))
  {
    var p := w.phils[i];
    var ask, granted := Acquire(p.lo, p.id, i), Granted(i, p.id);
    var v, v' := w.(forks := w.forks[p.lo := p.id]), WithFirst(w, i);
    DeliverFrom(w, rest, Think(i), w, multiset{ask});
    DeliverFrom(w, rest, ask, v, multiset{granted});
    DeliverFrom(v, rest, granted, v', multiset{Acquire(p.hi, p.id, i)});
    RunThree(Deliver, w.(mail := rest + multiset{Think(i)}), Think(i), w.(mail := rest + multiset{ask}), ask,
             v.(mail := rest + multiset{granted}), granted, v'.(mail := rest + multiset{Acquire(p.hi, p.id, i)}));
    s := [Think(i), ask, granted];
  }

  lemma GivesBack(w: World, i: nat, rest: multiset<Message>) returns (s: seq<Message>)
    requires i < |w.phils| && w.phils[i].state == 0 && w.phils[i].lo < |w.forks| && w.forks[w.phils[i].lo] == 0
    requires w.phils[i].hi < |w.forks| && w.phils[i].hi != w.phils[i].lo && w.forks[w.phils[i].hi] != 0
    requires w.phils[i].id != 0
    ensures Run(Deliver, WithFirst(w, i).(mail := rest + multiset{Acquire(w.phils[i].hi, w.phils[i].id, i)}), s)
            == Some(w.(mail := rest + multiset{Think(i)}))
  {
    var p := w.phils[i];
    var ask, denied, back := Acquire(p.hi, p.id, i), Denied(i, p.id), Release(p.lo, p.id, i);
    var u, v := WithFirst(w, i), w.(forks := w.forks[p.lo := p.id]);
    var more := rest + multiset{Think(i)};
    assert u.phils[i].(state := 0) == p && u.phils[i := p] == w.phils && v.forks[p.lo := 0] == w.forks;
    assert rest + multiset{back, Think(i)} == more + multiset{back} && more + multiset{} == more;
    DeliverFrom(u, rest, ask, u, multiset{denied});
    DeliverFrom(u, rest, denied, v, multiset{back, Think(i)});
    DeliverFrom(v, more, back, w, multiset{});
    RunThree(Deliver, u.(mail := rest + multiset{ask}), ask, u.(mail := rest + multiset{denied}), denied,
             v.(mail := more + multiset{back}), back, w.(mail := more));
    s := [ask, denied, back];
  }

  ghost predicate Spins(w: World) {
    exists s :: s != [] && Run(Deliver, w, s) == Some(w)
  }

  lemma SecondDenied(w: World, i: nat)
    requires i < |w.phils| && Think(i) in w.mail
    requires w.phils[i].state == 0 && w.phils[i].lo < |w.forks| && w.forks[w.phils[i].lo] == 0
    requires w.phils[i].hi < |w.forks| && w.phils[i].hi != w.phils[i].lo && w.forks[w.phils[i].hi] != 0
    requires w.phils[i].id != 0
    ensures Spins(w)
  {
    var rest := w.mail - multiset{Think(i)};
    assert w.(mail := rest + multiset{Think(i)}) == w;
    var take := TakesFirst(w, i, rest);
    var back := GivesBack(w, i, rest);
    RunAppend(Deliver, w, take, Run(Deliver, w, take).value, back);
    assert take + back != [];
  }

  lemma FirstDenied(w: World, i: nat)
    requires i < |w.phils| && Think(i) in w.mail
    requires w.phils[i].state == 0 && w.phils[i].lo < |w.forks| && w.forks[w.phils[i].lo] != 0
    ensures Spins(w)
  {
    DeniedRound(w, i);
  }

  lemma ThinkerIsIdle(w: World, phs: seq<Phase>, i: nat)
    requires Account(w, phs) && i < |w.phils| && Think(i) in w.mail
    ensures w.phils[i].state == 0
  {
    assert Placed(w, phs, Think(i));
    assert LocalOk(w.phils[i], phs[i]);
  }

  /** Whoever has a fork taken by somebody can think, ask and be denied, and all is as before. */
  lemma TakenSpins(w: World, phs: seq<Phase>, i: nat, f: nat)
    requires Account(w, phs) && i < |w.phils| && Think(i) in w.mail
    requires (f == w.phils[i].lo || f == w.phils[i].hi) && f < |w.forks| && w.forks[f] != 0
    ensures Spins(w)
  {
    ThinkerIsIdle(w, phs, i);
    if w.forks[w.phils[i].lo] != 0 {
      FirstDenied(w, i);
    } else {
      SecondDenied(w, i);
    }
  }

  /** While somebody's first fork is taken, that somebody can think, ask and be denied for ever. */
  lemma CanSpin(w0: World, w: World, i: nat)
    requires Initial(w0) && Reachable(Deliver, w0, w) && i < |w.phils|
    requires Think(i) in w.mail && w.phils[i].lo < |w.forks| && w.forks[w.phils[i].lo] != 0
    ensures var p := w.phils[i];
            Run(Deliver, w, [Think(i), Acquire(p.lo, p.id, i), Denied(i, p.id)]) == Some(w)
  {
    ReachableInv(w0, w);
    var phs :| Account(w, phs);
    ThinkerIsIdle(w, phs, i);
    DeniedRound(w, i);
  }

  // ----- where somebody can be denied -----

  predicate Uses(p: Phil, f: nat) {
    f == p.lo || f == p.hi
  }

  ghost predicate Shares(w: World) {
    exists i: nat, j: nat, f: nat ::
      i < |w.phils| && j < |w.phils| && i != j && Uses(w.phils[i], f) && Uses(w.phils[j], f)
  }

  ghost predicate Again(w: World) {
    exists i: nat :: i < |w.phils| && w.phils[i].target > 1
  }

  lemma InitialAlone(w: World, i: nat)
    requires Initial(w) && i < |w.phils|
    ensures Alone(w, seq(|w.phils|, _ => Thinking), i)
  {
    assert w.mail[Release(w.phils[i].lo, w.phils[i].id, i)] == 0;
    assert w.mail[Release(w.phils[i].hi, w.phils[i].id, i)] == 0;
  }

  /** One of two who share a fork can take it while the other has not moved. */
  lemma SharedTaken(w0: World, i: nat, j: nat, f: nat) returns (w: World, phs: seq<Phase>)
    requires Initial(w0) && i < |w0.phils| && j < |w0.phils| && i != j && Uses(w0.phils[i], f) && Uses(w0.phils[j], f)
    ensures Reachable(Deliver, w0, w) && Account(w, phs) && i < |w.phils| && w.phils[i] == w0.phils[i]
    ensures Think(i) in w.mail && f < |w.forks| && w.forks[f] != 0
  {
    var start := seq(|w0.phils|, _ => Thinking);
    InitialAccount(w0);
    InitialAlone(w0, j);
    var s;
    s, w, phs := TakeBoth(w0, start, j);
    assert SameFor(w0, start, w, phs, i) && Agent(Think(i)) == i;
    assert w0.mail[Think(i)] == 1;
    assert Holds(w.phils[j], phs[j], f);
  }

  lemma SharedSpins(w0: World, i: nat, j: nat, f: nat)
    requires Initial(w0) && i < |w0.phils| && j < |w0.phils| && i != j && Uses(w0.phils[i], f) && Uses(w0.phils[j], f)
    ensures exists w :: Reachable(Deliver, w0, w) && Spins(w)
  {
    var w, phs := SharedTaken(w0, i, j, f);
    TakenSpins(w, phs, i, f);
  }

  lemma AgainSpins(w0: World, i: nat)
    requires Initial(w0) && i < |w0.phils| && w0.phils[i].target > 1
    ensures exists w :: Reachable(Deliver, w0, w) && Spins(w)
  {
    var phs := seq(|w0.phils|, _ => Thinking);
    InitialAccount(w0);
    InitialAlone(w0, i);
    var s, w, phs' := EatAlone(w0, phs, i);
    var p := w.phils[i];
    var back := Release(p.lo, p.id, i);
    assert back in w.mail by {
      assert w.mail[Release(p.hi, p.id, i)] <= 1;
    }
    assert Placed(w, phs', back);
    assert Control(i, p, phs'[i]) == Think(i);
    TakenSpins(w, phs', i, p.lo);
  }

  // ----- where nobody is ever denied -----

  /** Nobody denied, and nobody still to eat has anything to return. */
  ghost predicate Solo(w: World, phs: seq<Phase>) {
    && Account(w, phs) && !Shares(w) && !Again(w)
    && forall i :: 0 <= i < |phs| ==> SoloPhil(w.phils[i], phs[i], Releases(w.mail, w.phils[i], i))
  }

  predicate SoloPhil(p: Phil, ph: Phase, releases: int) {
    ph != DeniedLo && ph != DeniedHi && (ph != Done ==> releases == 0)
  }

  function Ahead(ph: Phase): nat {
    match ph
    case Thinking => 7
    case AskingLo => 6
    case GrantedLo => 5
    case AskingHi => 4
    case GrantedHi => 3
    case _ => 0
  }

  function StepsOf(w: World, phs: seq<Phase>, i: nat): int
    requires i < |w.phils| == |phs|
  {
    Ahead(phs[i]) + Releases(w.mail, w.phils[i], i)
  }

  /** Deliveries still to come for the first n philosophers. */
  function StepsLeft(w: World, phs: seq<Phase>, n: nat): int
    requires n <= |w.phils| == |phs|
  {
    if n == 0 then 0 else StepsLeft(w, phs, n - 1) + StepsOf(w, phs, n - 1)
  }

  /** A fork asked for is free: only its one user could have marked it. */
  lemma AskedIsFree(w: World, phs: seq<Phase>, m: Message)
    requires Solo(w, phs) && m in w.mail && m.Acquire? && m.fork < |w.forks|
    ensures w.forks[m.fork] == 0
  {
    assert Placed(w, phs, m);
    assert Uses(w.phils[m.sender], m.fork);
    assert SoloPhil(w.phils[m.sender], phs[m.sender], Releases(w.mail, w.phils[m.sender], m.sender));
    if w.forks[m.fork] != 0 {
      var j: nat :| Occupied(w, phs, m.fork, j);
      OccupantUses(w, phs, m.fork, j);
    }
  }

  lemma OccupantUses(w: World, phs: seq<Phase>, f: nat, j: nat)
    requires Account(w, phs) && f < |w.forks| && Occupied(w, phs, f, j)
    ensures Uses(w.phils[j], f)
  {
    var back := Release(f, w.phils[j].id, j);
    if back in w.mail {
      assert Placed(w, phs, back);
    }
  }

  lemma SoloHandler(w: World, phs: seq<Phase>, m: Message)
    requires Wired(w) && Locals(w, phs) && Addressed(w, m) && Placed(w, phs, m)
    requires m.Acquire? ==> w.forks[m.fork] == 0
    requires phs[Agent(m)] != DeniedLo && phs[Agent(m)] != DeniedHi && w.phils[Agent(m)].target <= 1
    ensures var a := Agent(m);
            var releases := Releases(Outbox(w, m), w.phils[a], a);
            && Ahead(NextPhase(w, phs, m)) + releases == (if m.Release? then Ahead(phs[a]) else Ahead(phs[a]) - 1)
            && SoloPhil(w.phils[a], NextPhase(w, phs, m), releases)
  {
    assert LocalOk(w.phils[Agent(m)], phs[Agent(m)]);
  }

  lemma SoloAgent(w: World, phs: seq<Phase>, m: Message)
    requires Solo(w, phs) && m in w.mail && Enabled(w, m) && Placed(w, phs, m)
    ensures var a := Agent(m);
            var left := Releases(Step(w, m).mail, w.phils[a], a);
            && Ahead(NextPhase(w, phs, m)) + left == Ahead(phs[a]) + Releases(w.mail, w.phils[a], a) - 1
            && SoloPhil(w.phils[a], NextPhase(w, phs, m), left)
  {
    var a := Agent(m);
    var p := w.phils[a];
    assert SoloPhil(p, phs[a], Releases(w.mail, p, a));
    if m.Acquire? {
      AskedIsFree(w, phs, m);
    }
    SoloHandler(w, phs, m);
    StepCount(w, m, Release(p.lo, p.id, a));
    StepCount(w, m, Release(p.hi, p.id, a));
    assert Releases(Step(w, m).mail, p, a)
        == Releases(w.mail, p, a) - (if m.Release? then 1 else 0) + Releases(Outbox(w, m), p, a);
  }

  /** Only philosopher a's steps changed, and there is one fewer. */
  ghost predicate OneFewer(w: World, phs: seq<Phase>, w': World, phs': seq<Phase>, a: nat) {
    && |w.phils| == |phs| == |w'.phils| == |phs'|
    && a < |phs|
    && (forall j :: 0 <= j < |phs| && j != a ==> StepsOf(w', phs', j) == StepsOf(w, phs, j))
    && StepsOf(w', phs', a) == StepsOf(w, phs, a) - 1
  }

  lemma {:induction false} OneAhead(w: World, phs: seq<Phase>, w': World, phs': seq<Phase>, a: nat, n: nat)
    requires OneFewer(w, phs, w', phs', a) && n <= |phs|
    ensures StepsLeft(w', phs', n) == StepsLeft(w, phs, n) - (if a < n then 1 else 0)
  {
    if n > 0 {
      OneAhead(w, phs, w', phs', a, n - 1);
    }
  }

  lemma SameReleases(w: World, phs: seq<Phase>, w': World, phs': seq<Phase>, j: nat)
    requires SameFor(w, phs, w', phs', j)
    ensures Releases(w'.mail, w'.phils[j], j) == Releases(w.mail, w.phils[j], j)
  {
    var p := w.phils[j];
    assert Agent(Release(p.lo, p.id, j)) == j && Agent(Release(p.hi, p.id, j)) == j;
  }

  lemma SameUses(w: World, w': World)
    requires SameWiring(w, w')
    ensures Shares(w') ==> Shares(w)
    ensures Again(w') ==> Again(w)
  {
    if Shares(w') {
      var i: nat, j: nat, f: nat :|
        i < |w'.phils| && j < |w'.phils| && i != j && Uses(w'.phils[i], f) && Uses(w'.phils[j], f);
      assert Uses(w.phils[i], f) && Uses(w.phils[j], f);
    }
  }

  lemma SoloOthers(w: World, phs: seq<Phase>, w': World, phs': seq<Phase>, a: nat)
    requires a < |phs| && OthersSame(w, phs, w', phs', a)
    requires forall i :: 0 <= i < |phs| ==> SoloPhil(w.phils[i], phs[i], Releases(w.mail, w.phils[i], i))
    ensures forall i :: 0 <= i < |phs| && i != a ==>
              && SoloPhil(w'.phils[i], phs'[i], Releases(w'.mail, w'.phils[i], i))
              && StepsOf(w', phs', i) == StepsOf(w, phs, i)
  {
    forall i | 0 <= i < |phs| && i != a
      ensures SoloPhil(w'.phils[i], phs'[i], Releases(w'.mail, w'.phils[i], i))
            && StepsOf(w', phs', i) == StepsOf(w, phs, i)
    {
      SameReleases(w, phs, w', phs', i);
    }
  }

  lemma SoloStep(w: World, phs: seq<Phase>, m: Message)
    requires Solo(w, phs) && m in w.mail
    ensures Enabled(w, m) && Agent(m) < |phs| && Solo(Step(w, m), NextPhases(w, phs, m))
    ensures StepsLeft(Step(w, m), NextPhases(w, phs, m), |phs|) == StepsLeft(w, phs, |phs|) - 1
  {
    StepKeepsAccount(w, phs, m);
    assert Placed(w, phs, m);
    var w', phs' := Step(w, m), NextPhases(w, phs, m);
    HandleKeepsWiring(w, m);
    SameUses(w, w');
    SoloAgent(w, phs, m);
    StepOthersSame(w, phs, m);
    SoloOthers(w, phs, w', phs', Agent(m));
    OneAhead(w, phs, w', phs', Agent(m), |phs|);
  }

  lemma {:induction false} SoloRun(w: World, phs: seq<Phase>, s: seq<Message>) returns (end: World, phsE: seq<Phase>)
    requires Solo(w, phs) && Run(Deliver, w, s).Some?
    ensures Run(Deliver, w, s) == Some(end) && Solo(end, phsE)
    ensures |s| + StepsLeft(end, phsE, |phsE|) == StepsLeft(w, phs, |phs|)
    decreases |s|
  {
    if s == [] {
      end, phsE := w, phs;
    } else {
      SoloStep(w, phs, s[0]);
      end, phsE := SoloRun(Step(w, s[0]), NextPhases(w, phs, s[0]), s[1..]);
    }
  }

  lemma {:induction false} InitialSteps(w: World, n: nat)
    requires Initial(w) && n <= |w.phils|
    ensures StepsLeft(w, seq(|w.phils|, _ => Thinking), n) == 7 * n
  {
    if n > 0 {
      InitialSteps(w, n - 1);
      InitialAlone(w, n - 1);
    }
  }

  lemma {:induction false} NoStepsLeft(w: World, phs: seq<Phase>, n: nat)
    requires Locals(w, phs) && n <= |phs|
    ensures StepsLeft(w, phs, n) >= 0
    ensures StepsLeft(w, phs, n) == 0 ==> forall i :: 0 <= i < n ==> StepsOf(w, phs, i) == 0
  {
    if n > 0 {
      NoStepsLeft(w, phs, n - 1);
    }
  }

  lemma MailIsStep(w: World, phs: seq<Phase>, m: Message)
    requires Solo(w, phs) && m in w.mail
    ensures Agent(m) < |phs| && StepsOf(w, phs, Agent(m)) > 0
  {
    assert Placed(w, phs, m);
    assert SoloPhil(w.phils[Agent(m)], phs[Agent(m)], Releases(w.mail, w.phils[Agent(m)], Agent(m)));
  }

  lemma SilentIffNoSteps(w: World, phs: seq<Phase>)
    requires Solo(w, phs)
    ensures StepsLeft(w, phs, |phs|) >= 0
    ensures StepsLeft(w, phs, |phs|) == 0 ==> w.mail == multiset{}
  {
    NoStepsLeft(w, phs, |phs|);
    if w.mail != multiset{} {
      var m :| m in w.mail;
      MailIsStep(w, phs, m);
    }
  }

  /** Without shared forks and second meals no schedule has more than seven deliveries a philosopher,
      and one of that length has fed everybody. */
  lemma SevenEach(w0: World, s: seq<Message>, end: World)
    requires Initial(w0) && !Shares(w0) && !Again(w0) && Run(Deliver, w0, s) == Some(end)
    ensures |s| <= 7 * |w0.phils|
    ensures |s| == 7 * |w0.phils| ==> Finished(end)
  {
    var phs := seq(|w0.phils|, _ => Thinking);
    InitialAccount(w0);
    InitialSteps(w0, |w0.phils|);
    forall i | 0 <= i < |phs|
      ensures SoloPhil(w0.phils[i], phs[i], Releases(w0.mail, w0.phils[i], i))
    {
      InitialAlone(w0, i);
    }
    var last, phsE := SoloRun(w0, phs, s);
    SilentIffNoSteps(end, phsE);
    SilentIffDone(end, phsE);
  }

  // ----- when every schedule ends -----

  ghost predicate NoLonger(w: World, bound: nat) {
    forall s :: Run(Deliver, w, s).Some? ==> |s| <= bound
  }

  ghost predicate Bounded(w: World) {
    exists bound: nat :: NoLonger(w, bound)
  }

  lemma {:induction false} SpinOn(w: World, s: seq<Message>, n: nat) returns (t: seq<Message>)
    requires s != [] && Run(Deliver, w, s) == Some(w)
    ensures Run(Deliver, w, t) == Some(w) && |t| >= n
  {
    if n == 0 {
      t := [];
    } else {
      t := SpinOn(w, s, n - 1);
      RunAppend(Deliver, w, s, w, t);
      t := s + t;
    }
  }

  lemma SpinsUnbounded(w0: World, w: World)
    requires Reachable(Deliver, w0, w) && Spins(w)
    ensures !Bounded(w0)
  {
    var first :| Run(Deliver, w0, first) == Some(w);
    var s :| s != [] && Run(Deliver, w, s) == Some(w);
    forall bound: nat
      ensures !NoLonger(w0, bound)
    {
      var t := SpinOn(w, s, bound + 1);
      RunAppend(Deliver, w0, first, w, t);
      assert |first + t| > bound;
    }
  }

  /** Schedules in any order all end if and only if no two philosophers share a fork and nobody eats
      twice: already a philosopher with both forks for itself can be denied for ever, as long as its
      own release of a fork is not delivered. */
  lemma BoundedIff(w0: World)
    requires Initial(w0)
    ensures Bounded(w0) <==> !Shares(w0) && !Again(w0)
  {
    if Shares(w0) {
      var i: nat, j: nat, f: nat :|
        i < |w0.phils| && j < |w0.phils| && i != j && Uses(w0.phils[i], f) && Uses(w0.phils[j], f);
      SharedSpins(w0, i, j, f);
    } else if Again(w0) {
      var i: nat :| i < |w0.phils| && w0.phils[i].target > 1;
      AgainSpins(w0, i);
    } else {
      forall s | Run(Deliver, w0, s).Some?
        ensures |s| <= 7 * |w0.phils|
      {
        SevenEach(w0, s, Run(Deliver, w0, s).value);
      }
      assert NoLonger(w0, 7 * |w0.phils|);
    }
    if w :| Reachable(Deliver, w0, w) && Spins(w) {
      SpinsUnbounded(w0, w);
    }
  }
}
