/** Fair runs of the philosophers: every round has a meal or brings one nearer, so without a cycle
    of first and second forks everybody is fed within nine rounds a meal and one more. */
module PhilosopherRounds {
  import opened Wrappers
  import opened Schedules
  import opened Philosophers
  import opened PhilosopherRuns
  import opened PhilosopherFairness

  // ----- what holds a level -----

  function PhaseAt(level: nat): Phase {
    match level
    case 1 => DeniedHi
    case 3 => DeniedLo
    case 4 => Thinking
    case 5 => AskingLo
    case 6 => GrantedLo
    case 7 => AskingHi
    case _ => GrantedHi
  }

  /** A message in flight that keeps the level where it is: up to 4 all of them have to be
      delivered to raise it, from 5 on any one of them. */
  ghost predicate Pin(w: World, phs: seq<Phase>, f: nat, level: nat, x: Message)
    requires |phs| == |w.phils|
  {
    && x in w.mail
    && (match level
        case 0 => IsStray(w, phs, x)
        case 2 => x.Release? && x.fork == f
        case 8 => !x.Release? && Agent(x) < |phs| && phs[Agent(x)] == GrantedHi
        case _ => !x.Release? && StartsWith(w, phs, f, Agent(x)) && phs[Agent(x)] == PhaseAt(level))
  }

  lemma ControlIn(w: World, phs: seq<Phase>, i: nat) returns (x: Message)
    requires Account(w, phs) && Hungry(phs, i)
    ensures x in w.mail && !x.Release? && Agent(x) == i
  {
    x := Control(i, w.phils[i], phs[i]);
  }

  lemma AnyPin(w: World, phs: seq<Phase>, f: nat, level: nat) returns (x: Message)
    requires Account(w, phs) && (level == 1 || 3 <= level <= 7) && Any(w, phs, f, PhaseAt(level))
    ensures Pin(w, phs, f, level, x)
  {
    var i: nat :| StartsWith(w, phs, f, i) && phs[i] == PhaseAt(level);
    x := ControlIn(w, phs, i);
  }

  /** Whoever starts with the sink is in some phase. */
  lemma AskersLeft(w: World, phs: seq<Phase>, f: nat)
    requires |phs| == |w.phils| && Sink(w, phs, f) && Level(w, phs, f) == 5
    ensures Any(w, phs, f, AskingLo)
  {
    var i: nat :| StartsWith(w, phs, f, i);
    assert phs[i] == AskingLo by {
      assert Any(w, phs, f, phs[i]);
    }
  }

  lemma EaterPin(w: World, phs: seq<Phase>, f: nat) returns (x: Message)
    requires Account(w, phs) && Eating(phs)
    ensures Pin(w, phs, f, 8, x)
  {
    var i: nat :| i < |phs| && phs[i] == GrantedHi;
    x := ControlIn(w, phs, i);
  }

  lemma ReleasePin(w: World, phs: seq<Phase>, f: nat, level: nat) returns (x: Message)
    requires |phs| == |w.phils| && (level == 0 || level == 2)
    requires if level == 0 then Stray(w, phs) else InFlight(w, f)
    ensures Pin(w, phs, f, level, x)
  {
    if level == 0 {
      x :| x in w.mail && IsStray(w, phs, x);
    } else {
      x :| x in w.mail && x.Release? && x.fork == f;
    }
  }

  lemma LevelHasPin(w: World, phs: seq<Phase>, f: nat) returns (x: Message)
    requires Account(w, phs) && Sink(w, phs, f)
    ensures Pin(w, phs, f, Level(w, phs, f), x)
  {
    var level := Level(w, phs, f);
    if level == 8 {
      x := EaterPin(w, phs, f);
    } else if level == 0 || level == 2 {
      x := ReleasePin(w, phs, f, level);
    } else {
      if level == 5 {
        AskersLeft(w, phs, f);
      }
      x := AnyPin(w, phs, f, level);
    }
  }

  // ----- one delivery at an unchanged level -----

  /** Nobody but the agent of a delivered control message gets a new one. */
  lemma ControlKept(w: World, phs: seq<Phase>, m: Message, w': World, phs': seq<Phase>, x: Message)
    requires Account(w, phs) && Account(w', phs') && Quiet(w, phs, m, w', phs')
    requires !x.Release? && Agent(x) < |phs| && (Agent(x) != Agent(m) || m.Release?)
    ensures x in w.mail <==> x in w'.mail
    ensures x in w.mail ==> x != m
  {
    if x in w.mail {
      assert Placed(w, phs, x);
    }
    if x in w'.mail {
      assert Placed(w', phs', x);
    }
  }

  /** A control message delivered moves its agent out of the phases of levels 5 to 8, to a higher one. */
  lemma NearMoves(w: World, phs: seq<Phase>, m: Message, w': World, phs': seq<Phase>, f: nat)
    requires Account(w, phs) && Sink(w, phs, f) && Quiet(w, phs, m, w', phs') && !m.Release? && Level(w, phs, f) >= 5
    requires StartsWith(w, phs, f, Agent(m)) && phs[Agent(m)] == PhaseAt(Level(w, phs, f))
    ensures Level(w', phs', f) != Level(w, phs, f)
  {
    SinkFork(w, phs, f);
    SameHungry(w, phs, m, w', phs', f);
    if Level(w, phs, f) == 5 {
      FreeSink(w, phs, f);
      assert Any(w', phs', f, GrantedLo);
    } else if Level(w, phs, f) == 6 {
      assert Any(w', phs', f, AskingHi);
    } else {
      SecondGranted(w, phs, f, Agent(m));
      assert Eating(phs');
    }
  }

  /** No delivery at an unchanged level moves anybody into the phases of levels 1, 3 and 4. */
  lemma FarMoves(w: World, phs: seq<Phase>, m: Message, w': World, phs': seq<Phase>, f: nat, level: nat)
    requires Account(w, phs) && Sink(w, phs, f) && Quiet(w, phs, m, w', phs') && !m.Release?
    requires level == Level(w, phs, f) && (level == 1 || level == 3 || level == 4)
    ensures !(StartsWith(w, phs, f, Agent(m)) && phs'[Agent(m)] == PhaseAt(level))
  {
    if StartsWith(w, phs, f, Agent(m)) {
      assert Any(w, phs, f, phs[Agent(m)]);
      if level == 3 {
        SinkFork(w, phs, f);
        FreeSink(w, phs, f);
      }
    }
  }

  lemma PinBefore(w: World, phs: seq<Phase>, m: Message, w': World, phs': seq<Phase>, f: nat, level: nat, x: Message)
    requires Account(w, phs) && Account(w', phs') && Sink(w, phs, f) && Quiet(w, phs, m, w', phs')
    requires level == Level(w, phs, f) && level <= 4 && Pin(w', phs', f, level, x)
    ensures Pin(w, phs, f, level, x) && x != m
  {
    if level == 0 {
      NoNewStray(w, phs, m, w', phs', x);
    } else if level == 2 {
      ReleaseBefore(w, phs, m, w', phs', f, x);
    } else {
      SameHungry(w, phs, m, w', phs', f);
      if !m.Release? {
        FarMoves(w, phs, m, w', phs', f, level);
      }
      ControlKept(w, phs, m, w', phs', x);
    }
  }

  lemma ReleaseBefore(w: World, phs: seq<Phase>, m: Message, w': World, phs': seq<Phase>, f: nat, x: Message)
    requires Quiet(w, phs, m, w', phs') && !Any(w, phs, f, DeniedHi)
    requires x in w'.mail && x.Release? && x.fork == f
    ensures x in w.mail && x != m
  {
    if !(x in w.mail && x != m) {
      assert StartsWith(w, phs, f, Agent(m));
    }
  }

  lemma PinAfter(w: World, phs: seq<Phase>, m: Message, w': World, phs': seq<Phase>, f: nat, level: nat, x: Message)
    requires Account(w, phs) && Account(w', phs') && Sink(w, phs, f) && Quiet(w, phs, m, w', phs')
    requires level == Level(w, phs, f) == Level(w', phs', f) && level >= 5 && Pin(w, phs, f, level, x)
    ensures Pin(w', phs', f, level, x) && x != m
  {
    SameHungry(w, phs, m, w', phs', f);
    if Agent(x) == Agent(m) && !m.Release? && level < 8 {
      NearMoves(w, phs, m, w', phs', f);
    }
    ControlKept(w, phs, m, w', phs', x);
  }

  // ----- many deliveries -----

  /** Up to 4: what pins the level at the end did so at the start and was not delivered.
      From 5 on: what pinned it at the start still does and was not delivered. */
  ghost predicate Pinned(w: World, phs: seq<Phase>, s: seq<Message>, w': World, phs': seq<Phase>, f: nat, level: nat)
    requires |phs| == |w.phils| && |phs'| == |w'.phils|
  {
    && (level <= 4 ==> forall x :: Pin(w', phs', f, level, x) ==> Pin(w, phs, f, level, x) && x !in s)
    && (level >= 5 ==> forall x :: Pin(w, phs, f, level, x) ==> Pin(w', phs', f, level, x) && x !in s)
  }

  lemma AllPinnedBefore(w: World, phs: seq<Phase>, m: Message, w': World, phs': seq<Phase>, f: nat, level: nat)
    requires Account(w, phs) && Account(w', phs') && Sink(w, phs, f) && Quiet(w, phs, m, w', phs')
    requires level == Level(w, phs, f) && level <= 4
    ensures forall x :: Pin(w', phs', f, level, x) ==> Pin(w, phs, f, level, x) && x != m
  {
    forall x | Pin(w', phs', f, level, x)
      ensures Pin(w, phs, f, level, x) && x != m
    {
      PinBefore(w, phs, m, w', phs', f, level, x);
    }
  }

  lemma AllPinnedAfter(w: World, phs: seq<Phase>, m: Message, w': World, phs': seq<Phase>, f: nat, level: nat)
    requires Account(w, phs) && Account(w', phs') && Sink(w, phs, f) && Quiet(w, phs, m, w', phs')
    requires level == Level(w, phs, f) == Level(w', phs', f) && level >= 5
    ensures forall x :: Pin(w, phs, f, level, x) ==> Pin(w', phs', f, level, x) && x != m
  {
    forall x | Pin(w, phs, f, level, x)
      ensures Pin(w', phs', f, level, x) && x != m
    {
      PinAfter(w, phs, m, w', phs', f, level, x);
    }
  }

  lemma StepPinned(w: World, phs: seq<Phase>, m: Message, w': World, phs': seq<Phase>, f: nat, level: nat)
    requires Account(w, phs) && Account(w', phs') && Sink(w, phs, f) && Quiet(w, phs, m, w', phs')
    requires level == Level(w, phs, f) == Level(w', phs', f)
    ensures Pinned(w, phs, [m], w', phs', f, level)
  {
    if level <= 4 {
      AllPinnedBefore(w, phs, m, w', phs', f, level);
    } else {
      AllPinnedAfter(w, phs, m, w', phs', f, level);
    }
  }

  lemma PinnedJoin(w: World, phs: seq<Phase>, m: Message, v: World, vhs: seq<Phase>, s: seq<Message>,
                   w': World, phs': seq<Phase>, f: nat, level: nat)
    requires |phs| == |w.phils| && |vhs| == |v.phils| && |phs'| == |w'.phils|
    requires Pinned(w, phs, [m], v, vhs, f, level) && Pinned(v, vhs, s, w', phs', f, level)
    ensures Pinned(w, phs, [m] + s, w', phs', f, level)
  {
  }

  // ----- meals -----

  /** Meals still to be eaten by the first n philosophers. */
  function MealsLeft(w: World, n: nat): int
    requires n <= |w.phils|
  {
    if n == 0 then 0 else MealsLeft(w, n - 1) + Quota(w.phils[n - 1]) - w.phils[n - 1].meals
  }

  function Left(w: World): int {
    MealsLeft(w, |w.phils|)
  }

  lemma {:induction false} LeftOfAll(w: World, phs: seq<Phase>, n: nat)
    requires Locals(w, phs) && n <= |phs|
    ensures MealsLeft(w, n) >= 0
    ensures MealsLeft(w, n) == 0 <==> forall i :: 0 <= i < n ==> phs[i] == Done
  {
    if n > 0 {
      LeftOfAll(w, phs, n - 1);
      assert LocalOk(w.phils[n - 1], phs[n - 1]);
    }
  }

  lemma {:induction false} OneAte(w: World, w': World, a: nat, d: int, n: nat)
    requires SameWiring(w, w') && a < |w.phils| && n <= |w.phils|
    requires forall j :: 0 <= j < |w.phils| && j != a ==> w'.phils[j] == w.phils[j]
    requires w'.phils[a].meals == w.phils[a].meals + d
    ensures MealsLeft(w', n) == MealsLeft(w, n) - (if a < n then d else 0)
  {
    if n > 0 {
      OneAte(w, w', a, d, n - 1);
    }
  }

  lemma HandlerMeals(w: World, phs: seq<Phase>, m: Message)
    requires Locals(w, phs) && Addressed(w, m) && Placed(w, phs, m)
    ensures Handle(w, m).phils[Agent(m)].meals == w.phils[Agent(m)].meals + (if IsMeal(w, phs, m) then 1 else 0)
  {
    assert LocalOk(w.phils[Agent(m)], phs[Agent(m)]);
  }

  lemma StepMeals(w: World, phs: seq<Phase>, m: Message)
    requires Locals(w, phs) && Enabled(w, m) && Placed(w, phs, m)
    ensures Left(Step(w, m)) == Left(w) - (if IsMeal(w, phs, m) then 1 else 0)
  {
    HandlerMeals(w, phs, m);
    HandleKeepsWiring(w, m);
    forall j | 0 <= j < |w.phils| && j != Agent(m)
      ensures Step(w, m).phils[j] == w.phils[j]
    {
      OthersUntouched(w, m, j);
    }
    OneAte(w, Step(w, m), Agent(m), if IsMeal(w, phs, m) then 1 else 0, |w.phils|);
  }

  /** Any deliveries at all keep the account and never add meals to be eaten. */
  lemma {:induction false} RunKeepsAccount(w: World, phs: seq<Phase>, s: seq<Message>)
    returns (end: World, phsE: seq<Phase>)
    requires Account(w, phs) && Run(Deliver, w, s).Some?
    ensures Run(Deliver, w, s) == Some(end) && Account(end, phsE) && Left(end) <= Left(w)
    decreases |s|
  {
    if s == [] {
      end, phsE := w, phs;
    } else {
      StepKeepsAccount(w, phs, s[0]);
      StepMeals(w, phs, s[0]);
      end, phsE := RunKeepsAccount(Step(w, s[0]), NextPhases(w, phs, s[0]), s[1..]);
    }
  }

  /** What deliveries come to: a meal, or the same meals left and a level that is higher or still pinned. */
  ghost predicate Driven(w: World, phs: seq<Phase>, s: seq<Message>, w': World, phs': seq<Phase>, f: nat)
    requires |phs| == |w.phils| && |phs'| == |w'.phils|
  {
    || Left(w') < Left(w)
    || (&& Left(w') == Left(w) && Sink(w', phs', f) && Level(w', phs', f) >= Level(w, phs, f)
        && (Level(w', phs', f) == Level(w, phs, f) ==> Pinned(w, phs, s, w', phs', f, Level(w, phs, f))))
  }

  lemma QuietDriven(w: World, phs: seq<Phase>, m: Message, f: nat) returns (w': World, phs': seq<Phase>)
    requires Account(w, phs) && m in w.mail && !IsMeal(w, phs, m) && Sink(w, phs, f)
    ensures Deliver(w, m) == Some(w') && Account(w', phs') && Sink(w', phs', f) && Left(w') == Left(w)
    ensures Driven(w, phs, [m], w', phs', f)
  {
    w', phs' := LevelKept(w, phs, m, f);
    StepMeals(w, phs, m);
    if Level(w', phs', f) == Level(w, phs, f) {
      StepPinned(w, phs, m, w', phs', f, Level(w, phs, f));
    }
  }

  lemma DrivenJoin(w: World, phs: seq<Phase>, m: Message, v: World, vhs: seq<Phase>, s: seq<Message>,
                   w': World, phs': seq<Phase>, f: nat)
    requires |phs| == |w.phils| && |vhs| == |v.phils| && |phs'| == |w'.phils| && Left(v) == Left(w)
    requires Driven(w, phs, [m], v, vhs, f) && Driven(v, vhs, s, w', phs', f)
    ensures Driven(w, phs, [m] + s, w', phs', f)
  {
    if Left(w') == Left(w) && Level(w', phs', f) == Level(w, phs, f) {
      PinnedJoin(w, phs, m, v, vhs, s, w', phs', f, Level(w, phs, f));
    }
  }

  lemma DrivenNowhere(w: World, phs: seq<Phase>, f: nat)
    requires |phs| == |w.phils| && Sink(w, phs, f)
    ensures Driven(w, phs, [], w, phs, f)
  {
  }

  lemma AfterMeal(w: World, phs: seq<Phase>, s: seq<Message>) returns (w': World, phs': seq<Phase>)
    requires Account(w, phs) && s != [] && s[0] in w.mail && IsMeal(w, phs, s[0]) && Run(Deliver, w, s).Some?
    ensures Run(Deliver, w, s) == Some(w') && Account(w', phs') && Left(w') < Left(w)
  {
    StepKeepsAccount(w, phs, s[0]);
    StepMeals(w, phs, s[0]);
    w', phs' := RunKeepsAccount(Step(w, s[0]), NextPhases(w, phs, s[0]), s[1..]);
  }

  lemma FirstDelivered(w: World, s: seq<Message>)
    requires s != [] && Run(Deliver, w, s).Some?
    ensures s[0] in w.mail && Deliver(w, s[0]).Some? && s == [s[0]] + s[1..]
    ensures Run(Deliver, w, s) == Run(Deliver, Deliver(w, s[0]).value, s[1..])
  {
  }

  lemma {:induction false} Drive(w: World, phs: seq<Phase>, s: seq<Message>, f: nat)
    returns (w': World, phs': seq<Phase>)
    requires Account(w, phs) && Sink(w, phs, f) && Run(Deliver, w, s).Some?
    ensures Run(Deliver, w, s) == Some(w') && Account(w', phs') && Driven(w, phs, s, w', phs', f)
    decreases |s|
  {
    if s == [] {
      w', phs' := w, phs;
      DrivenNowhere(w, phs, f);
    } else {
      FirstDelivered(w, s);
      if IsMeal(w, phs, s[0]) {
        w', phs' := AfterMeal(w, phs, s);
      } else {
        var v, vhs := QuietDriven(w, phs, s[0], f);
        w', phs' := Drive(v, vhs, s[1..], f);
        DrivenJoin(w, phs, s[0], v, vhs, s[1..], w', phs', f);
      }
    }
  }

  /** A round has a meal or raises the level. */
  lemma RoundRaises(w: World, phs: seq<Phase>, s: seq<Message>, f: nat) returns (w': World, phs': seq<Phase>)
    requires Account(w, phs) && Sink(w, phs, f) && Round(w, s)
    ensures Run(Deliver, w, s) == Some(w') && Account(w', phs')
    ensures Left(w') < Left(w) || (Left(w') == Left(w) && Sink(w', phs', f) && Level(w', phs', f) > Level(w, phs, f))
  {
    w', phs' := Drive(w, phs, s, f);
    var x := LevelHasPin(w, phs, f);
    if Left(w') == Left(w) {
      var y := LevelHasPin(w', phs', f);
      assert Level(w', phs', f) != Level(w, phs, f);
    }
  }

  // ----- a sink while somebody is hungry -----

  lemma CycleFound(w: World, c: seq<nat>, k: nat)
    requires Links(w, c) && k < |c| && w.phils[c[|c| - 1]].hi == w.phils[c[k]].lo
    ensures Cyclic(w)
  {
    var d := c[k..];
    forall i | 0 <= i < |d|
      ensures w.phils[d[i]].hi == w.phils[Following(d, i)].lo
    {
      assert d[i] == c[k + i];
    }
    assert IsCycle(w, d);
  }

  /** Each has the next one's first fork as second fork. */
  ghost predicate Links(w: World, c: seq<nat>) {
    && (forall k :: 0 <= k < |c| ==> c[k] < |w.phils|)
    && (forall k :: 0 <= k < |c| - 1 ==> w.phils[c[k]].hi == w.phils[c[k + 1]].lo)
  }

  /** c leads to fork f, and every fork not in unseen is the first fork of one of c. */
  ghost predicate Walk(w: World, c: seq<nat>, f: nat, unseen: set<nat>) {
    && Links(w, c) && (c != [] ==> w.phils[c[|c| - 1]].hi == f)
    && f in unseen
    && forall g: nat :: g < |w.forks| && g !in unseen ==> exists k :: 0 <= k < |c| && w.phils[c[k]].lo == g
  }

  lemma WalkOn(w: World, c: seq<nat>, f: nat, unseen: set<nat>, i: nat)
    requires !Cyclic(w) && Walk(w, c, f, unseen) && i < |w.phils| && w.phils[i].lo == f && w.phils[i].hi < |w.forks|
    ensures Walk(w, c + [i], w.phils[i].hi, unseen - {f})
  {
    var d, g := c + [i], w.phils[i].hi;
    assert d[|c|] == i;
    assert forall k :: 0 <= k < |c| ==> d[k] == c[k];
    forall h: nat | h < |w.forks| && h !in unseen - {f}
      ensures exists k :: 0 <= k < |d| && w.phils[d[k]].lo == h
    {
      if h == f {
        assert w.phils[d[|c|]].lo == h;
      } else {
        var k :| 0 <= k < |c| && w.phils[c[k]].lo == h;
        assert w.phils[d[k]].lo == h;
      }
    }
    if g !in unseen - {f} {
      var k :| 0 <= k < |d| && w.phils[d[k]].lo == g;
      CycleFound(w, d, k);
    }
  }

  lemma NoSink(w: World, phs: seq<Phase>, f: nat) returns (i: nat, j: nat)
    requires Wired(w) && |phs| == |w.phils| && !Sink(w, phs, f) && exists i: nat :: StartsWith(w, phs, f, i)
    ensures i < |w.phils| && w.phils[i].lo == f && w.phils[i].hi < |w.forks|
    ensures StartsWith(w, phs, w.phils[i].hi, j)
  {
    i, j :| StartsWith(w, phs, f, i) && Hungry(phs, j) && w.phils[i].hi == w.phils[j].lo;
  }

  /** Going on from second fork to first fork, over forks not seen before, ends in a sink. */
  lemma {:induction false} WalkToSink(w: World, phs: seq<Phase>, c: seq<nat>, f: nat, unseen: set<nat>)
    returns (sink: nat)
    requires Wired(w) && |phs| == |w.phils| && !Cyclic(w) && Walk(w, c, f, unseen)
    requires exists i: nat :: StartsWith(w, phs, f, i)
    ensures Sink(w, phs, sink)
    decreases unseen
  {
    if Sink(w, phs, f) {
      sink := f;
    } else {
      var i, j := NoSink(w, phs, f);
      WalkOn(w, c, f, unseen, i);
      sink := WalkToSink(w, phs, c + [i], w.phils[i].hi, unseen - {f});
    }
  }

  function Below(n: nat): (r: set<nat>)
    ensures forall g: nat :: g in r <==> g < n
  {
    if n == 0 then {} else Below(n - 1) + {n - 1}
  }

  lemma SinkExists(w: World, phs: seq<Phase>) returns (f: nat)
    requires Account(w, phs) && !Cyclic(w) && Left(w) > 0
    ensures Sink(w, phs, f)
  {
    LeftOfAll(w, phs, |phs|);
    var i: nat :| i < |phs| && phs[i] != Done;
    assert StartsWith(w, phs, w.phils[i].lo, i);
    f := WalkToSink(w, phs, [], w.phils[i].lo, Below(|w.forks|));
  }

  // ----- fair runs -----

  lemma {:induction false} OnlyReleases(w: World, s: seq<Message>)
    requires Run(Deliver, w, s).Some? && forall x :: x in w.mail ==> x.Release? && w.mail[x] == 1
    ensures forall x :: x in Run(Deliver, w, s).value.mail ==> x in w.mail && w.mail[x] == 1 && x !in s
    decreases |s|
  {
    if s != [] {
      OnlyReleases(Step(w, s[0]), s[1..]);
    }
  }

  lemma {:induction false} SilentStays(w: World, rounds: seq<seq<Message>>, end: World)
    requires w.mail == multiset{} && FairRun(w, rounds, end)
    ensures end == w
    decreases |rounds|
  {
    if rounds != [] {
      assert rounds[0] == [];
      SilentStays(w, rounds[1..], end);
    }
  }

  /** When everybody has eaten, one round returns the last forks. */
  lemma LastRound(w: World, phs: seq<Phase>, rounds: seq<seq<Message>>, end: World)
    requires Account(w, phs) && Left(w) == 0 && FairRun(w, rounds, end) && rounds != []
    ensures end.mail == multiset{}
  {
    LeftOfAll(w, phs, |phs|);
    forall x | x in w.mail
      ensures x.Release? && w.mail[x] == 1
    {
      assert Placed(w, phs, x);
    }
    OnlyReleases(w, rounds[0]);
    var w1 := Run(Deliver, w, rounds[0]).value;
    assert w1.mail == multiset{};
    SilentStays(w1, rounds[1..], end);
  }

  lemma SameCycles(w: World, w': World)
    requires SameWiring(w, w')
    ensures Cyclic(w) <==> Cyclic(w')
  {
    if Cyclic(w) {
      var c :| IsCycle(w, c);
      assert IsCycle(w', c);
    }
    if Cyclic(w') {
      var c :| IsCycle(w', c);
      assert IsCycle(w, c);
    }
  }

  lemma {:induction false} Within(w: World, phs: seq<Phase>, rounds: seq<seq<Message>>, end: World, f: nat)
    requires Account(w, phs) && !Cyclic(w) && FairRun(w, rounds, end)
    requires Left(w) > 0 ==> Sink(w, phs, f)
    requires |rounds| >= (if Left(w) > 0 then 9 * Left(w) - Level(w, phs, f) + 1 else 1)
    ensures end.mail == multiset{}
    decreases |rounds|
  {
    LeftOfAll(w, phs, |phs|);
    if Left(w) == 0 {
      LastRound(w, phs, rounds, end);
    } else {
      var w', phs' := RoundRaises(w, phs, rounds[0], f);
      LeftOfAll(w', phs', |phs'|);
      RunKeepsWiring(w, rounds[0]);
      SameCycles(w, w');
      var g := f;
      if 0 < Left(w') < Left(w) {
        g := SinkExists(w', phs');
      }
      Within(w', phs', rounds[1..], end, g);
    }
  }

  /** Without a cycle of first and second forks, every fair run of nine rounds a meal and one more
      feeds everybody. */
  lemma FairBound(w0: World, rounds: seq<seq<Message>>, end: World)
    requires Initial(w0) && !Cyclic(w0) && FairRun(w0, rounds, end) && |rounds| > 9 * Left(w0)
    ensures Finished(end)
  {
    InitialAccount(w0);
    var phs := seq(|w0.phils|, _ => Thinking);
    LeftOfAll(w0, phs, |phs|);
    var f := 0;
    if Left(w0) > 0 {
      f := SinkExists(w0, phs);
    }
    Within(w0, phs, rounds, end, f);
    var phsE := FairRunKeepsAccount(w0, phs, rounds, end);
    SilentIffDone(end, phsE);
  }

  lemma {:induction false} FairRunKeepsAccount(w: World, phs: seq<Phase>, rounds: seq<seq<Message>>, end: World)
    returns (phsE: seq<Phase>)
    requires Account(w, phs) && FairRun(w, rounds, end)
    ensures Account(end, phsE)
    decreases |rounds|
  {
    if rounds == [] {
      phsE := phs;
    } else {
      var v, vhs := RunKeepsAccount(w, phs, rounds[0]);
      phsE := FairRunKeepsAccount(v, vhs, rounds[1..], end);
    }
  }

  lemma {:induction false} LargestFirst(w: World, c: seq<nat>, n: nat) returns (k: nat)
    requires 0 < n <= |c| && forall i :: 0 <= i < |c| ==> c[i] < |w.phils|
    ensures k < n && forall i :: 0 <= i < n ==> w.phils[c[i]].lo <= w.phils[c[k]].lo
  {
    k := 0;
    if n > 1 {
      k := LargestFirst(w, c, n - 1);
      if w.phils[c[n - 1]].lo > w.phils[c[k]].lo {
        k := n - 1;
      }
    }
  }

  lemma CycleDescends(w: World, c: seq<nat>)
    requires IsCycle(w, c)
    ensures exists i :: 0 <= i < |w.phils| && w.phils[i].lo >= w.phils[i].hi
  {
    var k := LargestFirst(w, c, |c|);
    assert w.phils[c[k]].hi == w.phils[Following(c, k)].lo <= w.phils[c[k]].lo;
  }

  /** When everybody takes the lower fork first, as in the shipped program, there is no cycle. */
  lemma OrderedAcyclic(w: World)
    requires forall i :: 0 <= i < |w.phils| ==> w.phils[i].lo < w.phils[i].hi
    ensures !Cyclic(w)
  {
    if Cyclic(w) {
      var c :| IsCycle(w, c);
      CycleDescends(w, c);
    }
  }
}
