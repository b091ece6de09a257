/** Fair delivery: rounds that deliver at least everything in flight when they begin.  Without a
    cycle of first and second forks, every fair run feeds everybody within a known number of rounds. */
module PhilosopherFairness {
  import opened Wrappers
  import opened Schedules
  import opened Philosophers
  import opened PhilosopherRuns

  /** A schedule that delivers every message in flight at its start, and any others. */
  ghost predicate Round(w: World, s: seq<Message>) {
    Run(Deliver, w, s).Some? && forall m :: m in w.mail ==> m in s
  }

  /** One round after the other leads from w to end. */
  ghost predicate FairRun(w: World, rounds: seq<seq<Message>>, end: World)
    decreases |rounds|
  {
    if rounds == [] then end == w
    else Round(w, rounds[0]) && FairRun(Run(Deliver, w, rounds[0]).value, rounds[1..], end)
  }

  // ----- wiring -----

  function Following(c: seq<nat>, k: nat): nat
    requires k < |c|
  {
    if k + 1 < |c| then c[k + 1] else c[0]
  }

  /** Philosophers each of whom has the next one's first fork as second fork, in a circle. */
  ghost predicate IsCycle(w: World, c: seq<nat>) {
    && c != []
    && (forall k :: 0 <= k < |c| ==> c[k] < |w.phils|)
    && (forall k {:trigger Following(c, k)} :: 0 <= k < |c| ==> w.phils[c[k]].hi == w.phils[Following(c, k)].lo)
  }

  ghost predicate Cyclic(w: World) {
    exists c :: IsCycle(w, c)
  }

  /** Philosopher i still has to eat. */
  ghost predicate Hungry(phs: seq<Phase>, i: nat) {
    i < |phs| && phs[i] != Done
  }

  /** Philosopher i still has to eat and starts with fork f. */
  ghost predicate StartsWith(w: World, phs: seq<Phase>, f: nat, i: nat)
    requires |phs| == |w.phils|
  {
    Hungry(phs, i) && w.phils[i].lo == f
  }

  /** Hungry philosophers start with f, and nobody hungry starts with the second fork of any of them. */
  ghost predicate Sink(w: World, phs: seq<Phase>, f: nat)
    requires |phs| == |w.phils|
  {
    && (exists i: nat :: StartsWith(w, phs, f, i))
    && forall i: nat, j: nat :: StartsWith(w, phs, f, i) && Hungry(phs, j) ==> w.phils[i].hi != w.phils[j].lo
  }

  // ----- deliveries in which nobody eats -----

  /** m is the grant of a second fork. */
  predicate IsMeal(w: World, phs: seq<Phase>, m: Message)
    requires |phs| == |w.phils|
  {
    m.Granted? && m.to < |phs| && phs[m.to] == GrantedHi
  }

  /** The phase after the control message of phase ph, if that is no meal. */
  function PhaseAfter(w: World, p: Phil, ph: Phase): Phase
    requires p.lo < |w.forks| && p.hi < |w.forks|
  {
    match ph
    case Thinking => AskingLo
    case AskingLo => if w.forks[p.lo] == 0 then GrantedLo else DeniedLo
    case GrantedLo => AskingHi
    case AskingHi => if w.forks[p.hi] == 0 then GrantedHi else DeniedHi
    case DeniedLo => Thinking
    case DeniedHi => Thinking
    case GrantedHi => GrantedHi
    case Done => Done
  }

  /** What one delivery without a meal does to phases and releases. */
  ghost predicate Quiet(w: World, phs: seq<Phase>, m: Message, w': World, phs': seq<Phase>) {
    && |phs| == |w.phils| == |phs'| == |w'.phils| && Wired(w) && SameWiring(w, w')
    && Agent(m) < |phs|
    && (forall j :: 0 <= j < |phs| && j != Agent(m) ==> phs'[j] == phs[j])
    && (if m.Release? then phs'[Agent(m)] == phs[Agent(m)]
        else
          var a := Agent(m);
          && phs[a] != Done && m == Control(a, w.phils[a], phs[a])
          && phs'[a] == PhaseAfter(w, w.phils[a], phs[a]) && phs[a] != GrantedHi)
    && (forall x :: x in w'.mail && x.Release? ==>
          || (x in w.mail && x != m)
          || (!m.Release? && phs[Agent(m)] == DeniedHi && x.sender == Agent(m) && x.fork == w.phils[x.sender].lo))
  }

  lemma QuietPhase(w: World, phs: seq<Phase>, m: Message)
    requires Wired(w) && Locals(w, phs) && Addressed(w, m) && Placed(w, phs, m) && !m.Release? && !IsMeal(w, phs, m)
    ensures NextPhase(w, phs, m) == PhaseAfter(w, w.phils[Agent(m)], phs[Agent(m)])
    ensures phs[Agent(m)] != Done && phs[Agent(m)] != GrantedHi
  {
    assert LocalOk(w.phils[Agent(m)], phs[Agent(m)]);
  }

  lemma QuietReleases(w: World, phs: seq<Phase>, m: Message, x: Message)
    requires Wired(w) && Locals(w, phs) && Addressed(w, m) && Placed(w, phs, m) && !IsMeal(w, phs, m)
    requires x.Release? && x in Outbox(w, m)
    ensures !m.Release? && phs[Agent(m)] == DeniedHi && x.sender == Agent(m) && x.fork == w.phils[x.sender].lo
  {
    assert LocalOk(w.phils[Agent(m)], phs[Agent(m)]);
  }

  lemma NewRelease(w: World, phs: seq<Phase>, m: Message, x: Message)
    requires Wired(w) && Locals(w, phs) && Enabled(w, m) && Placed(w, phs, m) && !IsMeal(w, phs, m) && w.mail[m] == 1
    requires x in Step(w, m).mail && x.Release? && !(x in w.mail && x != m)
    ensures !m.Release? && phs[Agent(m)] == DeniedHi && x.sender == Agent(m) && x.fork == w.phils[x.sender].lo
  {
    StepCount(w, m, x);
    QuietReleases(w, phs, m, x);
  }

  lemma QuietStep(w: World, phs: seq<Phase>, m: Message)
    requires Account(w, phs) && m in w.mail && !IsMeal(w, phs, m)
    ensures Enabled(w, m) && Agent(m) < |phs| && Account(Step(w, m), NextPhases(w, phs, m))
    ensures Quiet(w, phs, m, Step(w, m), NextPhases(w, phs, m))
  {
    StepKeepsAccount(w, phs, m);
    HandleKeepsWiring(w, m);
    if !m.Release? {
      QuietPhase(w, phs, m);
    }
    forall x | x in Step(w, m).mail && x.Release? && !(x in w.mail && x != m)
      ensures !m.Release? && phs[Agent(m)] == DeniedHi && x.sender == Agent(m) && x.fork == w.phils[x.sender].lo
    {
      NewRelease(w, phs, m, x);
    }
  }

  // ----- how far the hungry who start with a sink fork are from a meal -----

  ghost predicate Eating(phs: seq<Phase>) {
    exists i :: 0 <= i < |phs| && phs[i] == GrantedHi
  }

  /** A release of something else than the first fork of somebody hungry: what is left of a meal. */
  ghost predicate IsStray(w: World, phs: seq<Phase>, m: Message)
    requires |phs| == |w.phils|
  {
    m.Release? && !(Hungry(phs, m.sender) && m.fork == w.phils[m.sender].lo)
  }

  ghost predicate Stray(w: World, phs: seq<Phase>)
    requires |phs| == |w.phils|
  {
    exists m :: m in w.mail && IsStray(w, phs, m)
  }

  ghost predicate Any(w: World, phs: seq<Phase>, f: nat, ph: Phase)
    requires |phs| == |w.phils|
  {
    exists i: nat :: StartsWith(w, phs, f, i) && phs[i] == ph
  }

  ghost predicate InFlight(w: World, f: nat) {
    exists m :: m in w.mail && m.Release? && m.fork == f
  }

  function Grade(eating: bool, stray: bool, askingHi: bool, grantedLo: bool,
                 deniedHi: bool, inFlight: bool, deniedLo: bool, thinking: bool): (r: nat)
    ensures r <= 8
  {
    if eating then 8
    else if stray then 0
    else if askingHi then 7
    else if grantedLo then 6
    else if deniedHi then 1
    else if inFlight then 2
    else if deniedLo then 3
    else if thinking then 4
    else 5
  }

  /** Never lowered without a meal, and raised by every round; at 8 the next round has a meal. */
  ghost function Level(w: World, phs: seq<Phase>, f: nat): nat
    requires |phs| == |w.phils|
  {
    Grade(Eating(phs), Stray(w, phs), Any(w, phs, f, AskingHi), Any(w, phs, f, GrantedLo),
          Any(w, phs, f, DeniedHi), InFlight(w, f), Any(w, phs, f, DeniedLo), Any(w, phs, f, Thinking))
  }

  // ----- what a delivery without a meal keeps -----

  lemma SameHungry(w: World, phs: seq<Phase>, m: Message, w': World, phs': seq<Phase>, f: nat)
    requires Quiet(w, phs, m, w', phs')
    ensures forall i :: Hungry(phs', i) <==> Hungry(phs, i)
    ensures forall i :: StartsWith(w', phs', f, i) <==> StartsWith(w, phs, f, i)
    ensures Sink(w, phs, f) ==> Sink(w', phs', f)
  {
    forall i
      ensures Hungry(phs', i) <==> Hungry(phs, i)
      ensures StartsWith(w', phs', f, i) <==> StartsWith(w, phs, f, i)
    {
    }
    if Sink(w, phs, f) {
      var i: nat :| StartsWith(w, phs, f, i);
      assert StartsWith(w', phs', f, i);
    }
  }

  lemma EatingStays(w: World, phs: seq<Phase>, m: Message, w': World, phs': seq<Phase>)
    requires Quiet(w, phs, m, w', phs')
    ensures Eating(phs) ==> Eating(phs')
  {
    if Eating(phs) {
      var i :| 0 <= i < |phs| && phs[i] == GrantedHi;
      assert phs'[i] == GrantedHi;
    }
  }

  lemma NoNewStray(w: World, phs: seq<Phase>, m: Message, w': World, phs': seq<Phase>, x: Message)
    requires Quiet(w, phs, m, w', phs') && x in w'.mail && IsStray(w', phs', x)
    ensures x in w.mail && x != m && IsStray(w, phs, x)
  {
    SameHungry(w, phs, m, w', phs', 0);
  }

  /** Whoever is in a phase was in it before, or got into it by this delivery. */
  lemma AnyBefore(w: World, phs: seq<Phase>, m: Message, w': World, phs': seq<Phase>, f: nat, ph: Phase)
    requires Quiet(w, phs, m, w', phs') && Any(w', phs', f, ph)
    ensures || Any(w, phs, f, ph)
            || (!m.Release? && StartsWith(w, phs, f, Agent(m)) && PhaseAfter(w, w.phils[Agent(m)], phs[Agent(m)]) == ph)
  {
    SameHungry(w, phs, m, w', phs', f);
    var i: nat :| StartsWith(w', phs', f, i) && phs'[i] == ph;
    assert StartsWith(w, phs, f, i);
    if i != Agent(m) {
      assert phs[i] == ph;
    }
  }

  /** Why a fork is not free: somebody is about to eat, has it as first fork, or is returning it. */
  lemma MarkedBy(w: World, phs: seq<Phase>, g: nat) returns (i: nat, m: Message)
    requires Account(w, phs) && g < |w.forks| && w.forks[g] != 0
    ensures || Eating(phs)
            || (StartsWith(w, phs, g, i) && (phs[i] == GrantedLo || phs[i] == AskingHi || phs[i] == DeniedHi))
            || (m in w.mail && m.Release? && m.fork == g)
  {
    i :| Occupied(w, phs, g, i);
    m := Release(g, w.phils[i].id, i);
  }

  /** A release in flight was so before, or comes from somebody denied the second fork. */
  lemma InFlightBefore(w: World, phs: seq<Phase>, m: Message, w': World, phs': seq<Phase>, f: nat)
    requires Quiet(w, phs, m, w', phs')
    ensures InFlight(w', f) ==> InFlight(w, f) || Any(w, phs, f, DeniedHi)
  {
    if InFlight(w', f) {
      var x :| x in w'.mail && x.Release? && x.fork == f;
      if x !in w.mail {
        assert StartsWith(w, phs, f, Agent(m));
      }
    }
  }

  /** Once nothing is left of meals, forks nobody hungry starts with are free. */
  lemma FreeFork(w: World, phs: seq<Phase>, g: nat)
    requires Account(w, phs) && !Eating(phs) && !Stray(w, phs) && g < |w.forks|
    requires forall j: nat :: Hungry(phs, j) ==> w.phils[j].lo != g
    ensures w.forks[g] == 0
  {
    if w.forks[g] != 0 {
      var i, m := MarkedBy(w, phs, g);
    }
  }

  /** The sink fork itself is free when nobody who starts with it has got or is returning it. */
  lemma FreeSink(w: World, phs: seq<Phase>, f: nat)
    requires Account(w, phs) && !Eating(phs) && !InFlight(w, f) && f < |w.forks|
    requires !Any(w, phs, f, GrantedLo) && !Any(w, phs, f, AskingHi) && !Any(w, phs, f, DeniedHi)
    ensures w.forks[f] == 0
  {
    if w.forks[f] != 0 {
      var i, m := MarkedBy(w, phs, f);
    }
  }

  lemma SinkFork(w: World, phs: seq<Phase>, f: nat)
    requires Account(w, phs) && Sink(w, phs, f)
    ensures f < |w.forks|
  {
  }

  /** With nothing left of meals, a second fork asked for by somebody who starts with the sink is granted. */
  lemma SecondGranted(w: World, phs: seq<Phase>, f: nat, i: nat)
    requires Account(w, phs) && Sink(w, phs, f) && StartsWith(w, phs, f, i) && !Eating(phs) && !Stray(w, phs)
    ensures w.forks[w.phils[i].hi] == 0
  {
    FreeFork(w, phs, w.phils[i].hi);
  }

  // ----- the level never falls without a meal -----

  lemma StrayKept(w: World, phs: seq<Phase>, m: Message, w': World, phs': seq<Phase>)
    requires Quiet(w, phs, m, w', phs')
    ensures Stray(w', phs') ==> Stray(w, phs)
  {
    if Stray(w', phs') {
      var x :| x in w'.mail && IsStray(w', phs', x);
      NoNewStray(w, phs, m, w', phs', x);
    }
  }

  /** From the grant of the first fork on, nothing but a meal is ahead. */
  lemma NearKept(w: World, phs: seq<Phase>, m: Message, w': World, phs': seq<Phase>, f: nat, ph: Phase)
    requires Account(w, phs) && Sink(w, phs, f) && Quiet(w, phs, m, w', phs')
    requires !Eating(phs) && !Stray(w, phs) && (ph == AskingHi || ph == GrantedLo) && Any(w, phs, f, ph)
    ensures Eating(phs') || Any(w', phs', f, AskingHi) || (ph == GrantedLo && Any(w', phs', f, GrantedLo))
  {
    var i: nat :| StartsWith(w, phs, f, i) && phs[i] == ph;
    SecondGranted(w, phs, f, i);
    SameHungry(w, phs, m, w', phs', f);
    assert StartsWith(w', phs', f, i);
  }

  lemma DeniedHiBefore(w: World, phs: seq<Phase>, m: Message, w': World, phs': seq<Phase>, f: nat)
    requires Quiet(w, phs, m, w', phs')
    ensures Any(w', phs', f, DeniedHi) ==> Any(w, phs, f, DeniedHi) || Any(w, phs, f, AskingHi)
  {
    if Any(w', phs', f, DeniedHi) {
      AnyBefore(w, phs, m, w', phs', f, DeniedHi);
    }
  }

  /** While the sink fork is free, nobody is denied it; and only the denied think again. */
  lemma FreeKept(w: World, phs: seq<Phase>, m: Message, w': World, phs': seq<Phase>, f: nat)
    requires Account(w, phs) && Sink(w, phs, f) && Quiet(w, phs, m, w', phs') && !Eating(phs) && !InFlight(w, f)
    requires !Any(w, phs, f, GrantedLo) && !Any(w, phs, f, AskingHi) && !Any(w, phs, f, DeniedHi)
    ensures Any(w', phs', f, DeniedLo) ==> Any(w, phs, f, DeniedLo)
    ensures Any(w', phs', f, Thinking) ==> Any(w, phs, f, Thinking) || Any(w, phs, f, DeniedLo)
  {
    SinkFork(w, phs, f);
    FreeSink(w, phs, f);
    if Any(w', phs', f, DeniedLo) {
      AnyBefore(w, phs, m, w', phs', f, DeniedLo);
    }
    if Any(w', phs', f, Thinking) {
      AnyBefore(w, phs, m, w', phs', f, Thinking);
    }
  }

  lemma LevelKeptQuiet(w: World, phs: seq<Phase>, m: Message, w': World, phs': seq<Phase>, f: nat)
    requires Account(w, phs) && Sink(w, phs, f) && Quiet(w, phs, m, w', phs')
    ensures Level(w', phs', f) >= Level(w, phs, f)
  {
    EatingStays(w, phs, m, w', phs');
    StrayKept(w, phs, m, w', phs');
    DeniedHiBefore(w, phs, m, w', phs', f);
    InFlightBefore(w, phs, m, w', phs', f);
    if Level(w, phs, f) >= 3 && !Eating(phs) {
      if Any(w, phs, f, AskingHi) {
        NearKept(w, phs, m, w', phs', f, AskingHi);
      } else if Any(w, phs, f, GrantedLo) {
        NearKept(w, phs, m, w', phs', f, GrantedLo);
      } else {
        FreeKept(w, phs, m, w', phs', f);
      }
    }
  }

  lemma LevelKept(w: World, phs: seq<Phase>, m: Message, f: nat) returns (w': World, phs': seq<Phase>)
    requires Account(w, phs) && m in w.mail && !IsMeal(w, phs, m) && Sink(w, phs, f)
    ensures Deliver(w, m) == Option.Some(w') && Agent(m) < |phs| && Addressed(w, m) && phs' == NextPhases(w, phs, m)
    ensures Account(w', phs') && Quiet(w, phs, m, w', phs') && Sink(w', phs', f)
    ensures Level(w', phs', f) >= Level(w, phs, f)
  {
    QuietStep(w, phs, m);
    w', phs' := Step(w, m), NextPhases(w, phs, m);
    SameHungry(w, phs, m, w', phs', f);
    LevelKeptQuiet(w, phs, m, w', phs', f);
  }
}
