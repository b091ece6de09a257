/** What the invariant of the philosophers gives over whole runs: an exact account of
    messages and forks in every reachable state, and a way to finish from each of them. */
module PhilosopherRuns {
  import opened Wrappers
  import opened Schedules
  import opened Philosophers

  // ----- the invariant holds in every reachable state -----

  lemma InitialAccount(w: World)
    requires Initial(w)
    ensures Account(w, seq(|w.phils|, _ => Thinking))
  {
    var phs := seq(|w.phils|, _ => Thinking);
    forall m | m in w.mail
      ensures w.mail[m] == 1 && Placed(w, phs, m)
    {
      assert w.mail[m] == if m.Think? && m.to < |w.phils| then 1 else 0;
    }
    forall i | 0 <= i < |w.phils|
      ensures Control(i, w.phils[i], phs[i]) in w.mail
    {
      assert w.mail[Think(i)] == 1;
    }
  }

  lemma {:induction false} RunKeepsInv(w: World, sched: seq<Message>)
    requires Inv(w) && Run(Deliver, w, sched).Some?
    ensures Inv(Run(Deliver, w, sched).value)
    decreases |sched|
  {
    if sched != [] {
      var phs :| Account(w, phs);
      StepKeepsAccount(w, phs, sched[0]);
      RunKeepsInv(Step(w, sched[0]), sched[1..]);
    }
  }

  lemma ReachableInv(w0: World, w: World)
    requires Initial(w0) && Reachable(Deliver, w0, w)
    ensures Inv(w)
  {
    InitialAccount(w0);
    var sched :| Run(Deliver, w0, sched) == Some(w);
    RunKeepsInv(w0, sched);
  }

  /** Only a philosopher's state and meals ever change. */
  ghost predicate SameWiring(v: World, w: World) {
    && |w.forks| == |v.forks| && |w.phils| == |v.phils|
    && forall j :: 0 <= j < |v.phils| ==>
         w.phils[j] == v.phils[j].(state := w.phils[j].state, meals := w.phils[j].meals)
  }

  lemma HandleKeepsWiring(w: World, m: Message)
    requires Addressed(w, m)
    ensures SameWiring(w, Handle(w, m))
  {
  }

  lemma {:induction false} RunKeepsWiring(w: World, sched: seq<Message>)
    requires Run(Deliver, w, sched).Some?
    ensures SameWiring(w, Run(Deliver, w, sched).value)
    decreases |sched|
  {
    if sched != [] {
      HandleKeepsWiring(w, sched[0]);
      RunKeepsWiring(Step(w, sched[0]), sched[1..]);
    }
  }

  lemma ReachableKeepsWiring(w0: World, w: World)
    requires Reachable(Deliver, w0, w)
    ensures SameWiring(w0, w)
  {
    var sched :| Run(Deliver, w0, sched) == Some(w);
    RunKeepsWiring(w0, sched);
  }

  // ----- reading the account -----

  /** Control messages of philosopher i in flight. */
  function ControlCount(w: World, i: nat): nat
    requires i < |w.phils|
  {
    var p := w.phils[i];
    w.mail[Think(i)] + w.mail[Acquire(p.lo, p.id, i)] + w.mail[Acquire(p.hi, p.id, i)]
    + w.mail[Granted(i, p.id)] + w.mail[Denied(i, p.id)]
  }

  /** i was granted fork f and has not answered the grant, or has moved on to its second fork. */
  predicate HasFork(w: World, i: nat, f: nat)
    requires i < |w.phils|
  {
    var p := w.phils[i];
    || (f == p.lo && (p.state == 1 || Granted(i, p.id) in w.mail))
    || (f == p.hi && p.state == 1 && Granted(i, p.id) in w.mail)
  }

  lemma AgentMail(w: World, phs: seq<Phase>, m: Message)
    requires Account(w, phs) && Agent(m) < |w.phils| && !m.Release?
    ensures w.mail[m] == Is(Agent(m), w.phils[Agent(m)], phs[Agent(m)], m)
  {
    if m in w.mail {
      assert Placed(w, phs, m);
    }
  }

  function Is(i: nat, p: Phil, ph: Phase, m: Message): nat {
    if ph != Done && m == Control(i, p, ph) then 1 else 0
  }

  lemma OneControl(i: nat, p: Phil, ph: Phase)
    requires p.lo != p.hi
    ensures Is(i, p, ph, Think(i)) + Is(i, p, ph, Acquire(p.lo, p.id, i)) + Is(i, p, ph, Acquire(p.hi, p.id, i))
            + Is(i, p, ph, Granted(i, p.id)) + Is(i, p, ph, Denied(i, p.id)) == if ph == Done then 0 else 1
  {
  }

  lemma ExactCount(w: World, phs: seq<Phase>, i: nat)
    requires Account(w, phs) && i < |w.phils|
    ensures ControlCount(w, i) == if phs[i] == Done then 0 else 1
  {
    var p := w.phils[i];
    OneControl(i, p, phs[i]);
    AgentMail(w, phs, Think(i));
    AgentMail(w, phs, Acquire(p.lo, p.id, i));
    AgentMail(w, phs, Acquire(p.hi, p.id, i));
    AgentMail(w, phs, Granted(i, p.id));
    AgentMail(w, phs, Denied(i, p.id));
  }

  lemma HasForkIffHolds(w: World, phs: seq<Phase>, i: nat, f: nat)
    requires Account(w, phs) && i < |w.phils|
    ensures HasFork(w, i, f) <==> Holds(w.phils[i], phs[i], f)
  {
    assert LocalOk(w.phils[i], phs[i]);
    AgentMail(w, phs, Granted(i, w.phils[i].id));
  }

  /** In every reachable state an unfinished philosopher has exactly one control message in
      flight and a finished one none; nothing else is in flight but releases. */
  lemma OneControlToken(w0: World, w: World, i: nat)
    requires Initial(w0) && Reachable(Deliver, w0, w) && i < |w.phils|
    ensures ControlCount(w, i) == if w.phils[i].meals < Quota(w.phils[i]) then 1 else 0
    ensures 0 <= w.phils[i].meals <= Quota(w.phils[i])
    ensures forall m :: m in w.mail && !m.Release? && Agent(m) == i ==>
              && w.mail[m] == 1
              && var p := w.phils[i];
                 m in {Think(i), Acquire(if p.state == 0
                       then p.lo else p.hi, p.id, i), Granted(i, p.id), Denied(i, p.id)}
  {
    ReachableInv(w0, w);
    var phs :| Account(w, phs);
    ExactCount(w, phs, i);
    assert LocalOk(w.phils[i], phs[i]);
    forall m | m in w.mail && !m.Release? && Agent(m) == i
      ensures w.mail[m] == 1 && m == Control(i, w.phils[i], phs[i])
    {
      assert Placed(w, phs, m);
    }
  }

  /** A fork is marked with philosopher i exactly when i has it or its one release of it is
      still in flight, never both; every other fork is free. */
  lemma ForkAccount(w0: World, w: World, f: nat)
    requires Initial(w0) && Reachable(Deliver, w0, w) && f < |w.forks|
    ensures forall i :: 0 <= i < |w.phils| ==>
              && (w.forks[f] == w.phils[i].id <==> HasFork(w, i, f) || Release(f, w.phils[i].id, i) in w.mail)
              && w.mail[Release(f, w.phils[i].id, i)] <= (if HasFork(w, i, f) then 0 else 1)
    ensures w.forks[f] == 0 <==> forall i :: 0 <= i < |w.phils| ==> w.forks[f] != w.phils[i].id
  {
    ReachableInv(w0, w);
    var phs :| Account(w, phs);
    forall i | 0 <= i < |w.phils|
      ensures w.forks[f] == w.phils[i].id <==> HasFork(w, i, f) || Release(f, w.phils[i].id, i) in w.mail
      ensures w.mail[Release(f, w.phils[i].id, i)] <= (if HasFork(w, i, f) then 0 else 1)
    {
      HasForkIffHolds(w, phs, i, f);
      var r := Release(f, w.phils[i].id, i);
      if r in w.mail {
        assert Placed(w, phs, r);
      }
      if w.forks[f] == w.phils[i].id {
        var j: nat :| Occupied(w, phs, f, j);
        assert i == j;
      }
    }
    if w.forks[f] != 0 {
      var j: nat :| Occupied(w, phs, f, j);
    }
  }

  /** Mutual exclusion: two philosophers never have the same fork, and the grant that lets a
      philosopher eat is handled with both of its forks marked with its id. */
  lemma MutualExclusion(w0: World, w: World, i: nat, j: nat, f: nat)
    requires Initial(w0) && Reachable(Deliver, w0, w) && i < |w.phils| && j < |w.phils| && f < |w.forks|
    ensures HasFork(w, i, f) && HasFork(w, j, f) ==> i == j
    ensures w.phils[i].state == 1 && Granted(i, w.phils[i].id) in w.mail && f in {w.phils[i].lo, w.phils[i].hi} ==>
              w.forks[f] == w.phils[i].id
  {
    ReachableInv(w0, w);
    var phs :| Account(w, phs);
    ForkAccount(w0, w, f);
  }

  // ----- stopping -----

  lemma SilentIffDone(w: World, phs: seq<Phase>)
    requires Account(w, phs)
    ensures w.mail == multiset{} <==> AllFed(w)
  {
    if w.mail != multiset{} {
      var m :| m in w.mail;
      assert Placed(w, phs, m);
      assert LocalOk(w.phils[Agent(m)], phs[Agent(m)]);
    } else {
      assert forall i :: 0 <= i < |phs| ==> phs[i] == Done && LocalOk(w.phils[i], phs[i]);
    }
  }

  /** Deadlock freedom: the system is silent exactly when everybody is fed and every fork free. */
  lemma SilentIffFed(w0: World, w: World)
    requires Initial(w0) && Reachable(Deliver, w0, w)
    ensures w.mail == multiset{} <==> AllFed(w)
  {
    ReachableInv(w0, w);
    var phs :| Account(w, phs);
    SilentIffDone(w, phs);
  }

  /** Every message in flight can be delivered, whatever the order. */
  lemma NothingStuck(w0: World, w: World, m: Message)
    requires Initial(w0) && Reachable(Deliver, w0, w) && m in w.mail
    ensures Enabled(w, m)
  {
    ReachableInv(w0, w);
    var phs :| Account(w, phs);
    StepKeepsAccount(w, phs, m);
  }

  // ----- a potential that every delivery but a think lowers -----

  function Rank(ph: Phase): nat {
    match ph
    case Done => 0
    case Thinking => 0
    case DeniedLo => 1
    case DeniedHi => 2
    case GrantedHi => 2
    case AskingHi => 3
    case GrantedLo => 4
    case AskingLo => 5
  }

  function Weight(p: Phil, ph: Phase, releases: int): int {
    10 * (Quota(p) - p.meals) + Rank(ph) + releases
  }

  function Releases(mail: multiset<Message>, p: Phil, i: nat): int {
    mail[Release(p.lo, p.id, i)] + mail[Release(p.hi, p.id, i)]
  }

  function Potential(w: World, phs: seq<Phase>, i: nat): int
    requires i < |w.phils| == |phs|
  {
    Weight(w.phils[i], phs[i], Releases(w.mail, w.phils[i], i))
  }

  function Total(w: World, phs: seq<Phase>, n: nat): int
    requires n <= |w.phils| == |phs|
  {
    if n == 0 then 0 else Total(w, phs, n - 1) + Potential(w, phs, n - 1)
  }

  lemma {:induction false} TotalNonNegative(w: World, phs: seq<Phase>, n: nat)
    requires n <= |w.phils| && Locals(w, phs)
    ensures Total(w, phs, n) >= 0
  {
    if n > 0 {
      TotalNonNegative(w, phs, n - 1);
      assert LocalOk(w.phils[n - 1], phs[n - 1]);
    }
  }

  /** Only philosopher a's potential changed, and it went down. */
  ghost predicate Lower(w: World, phs: seq<Phase>, w': World, phs': seq<Phase>, a: nat) {
    && |w.phils| == |phs| == |w'.phils| == |phs'|
    && a < |phs|
    && (forall j :: 0 <= j < |phs| && j != a ==> Potential(w', phs', j) == Potential(w, phs, j))
    && Potential(w', phs', a) < Potential(w, phs, a)
  }

  lemma {:induction false} LowerTotal(w: World, phs: seq<Phase>, w': World, phs': seq<Phase>, a: nat, n: nat)
    requires Lower(w, phs, w', phs', a) && n <= |phs|
    ensures if a < n then Total(w', phs', n) < Total(w, phs, n) else Total(w', phs', n) == Total(w, phs, n)
  {
    if n > 0 {
      LowerTotal(w, phs, w', phs', a, n - 1);
    }
  }

  lemma StepCountOther(w: World, phs: seq<Phase>, m: Message, x: Message)
    requires Wired(w) && |phs| == |w.phils| && Enabled(w, m) && Placed(w, phs, m) && Agent(x) != Agent(m)
    ensures Step(w, m).mail[x] == w.mail[x]
  {
    StepCount(w, m, x);
    if x in Outbox(w, m) {
      OutboxAgent(w, phs, m, x);
    }
  }

  /** Philosopher j, its phase and its messages in flight are the same in both states. */
  ghost predicate SameFor(w: World, phs: seq<Phase>, w': World, phs': seq<Phase>, j: nat) {
    && j < |phs| == |w.phils| == |w'.phils| == |phs'|
    && phs'[j] == phs[j] && w'.phils[j] == w.phils[j]
    && forall x :: Agent(x) == j ==> w'.mail[x] == w.mail[x]
  }

  /** A delivery leaves everyone but the message's agent alone. */
  lemma StepOthers(w: World, phs: seq<Phase>, m: Message, j: nat)
    requires Wired(w) && |phs| == |w.phils| && Enabled(w, m) && Placed(w, phs, m) && j < |phs| && j != Agent(m)
    ensures SameFor(w, phs, Step(w, m), NextPhases(w, phs, m), j)
  {
    OthersUntouched(w, m, j);
    forall x | Agent(x) == j
      ensures Step(w, m).mail[x] == w.mail[x]
    {
      StepCountOther(w, phs, m, x);
    }
  }

  ghost predicate OthersSame(w: World, phs: seq<Phase>, w': World, phs': seq<Phase>, i: nat) {
    && |w.phils| == |phs| == |phs'| == |w'.phils|
    && forall j :: 0 <= j < |phs| && j != i ==> SameFor(w, phs, w', phs', j)
  }

  lemma StepOthersSame(w: World, phs: seq<Phase>, m: Message)
    requires Wired(w) && |phs| == |w.phils| && Enabled(w, m) && Placed(w, phs, m)
    ensures OthersSame(w, phs, Step(w, m), NextPhases(w, phs, m), Agent(m))
  {
    forall j | 0 <= j < |phs| && j != Agent(m)
      ensures SameFor(w, phs, Step(w, m), NextPhases(w, phs, m), j)
    {
      StepOthers(w, phs, m, j);
    }
  }

  lemma OthersSameJoin(u: World, uhs: seq<Phase>, v: World, vhs: seq<Phase>, w: World, whs: seq<Phase>, i: nat)
    requires OthersSame(u, uhs, v, vhs, i) && OthersSame(v, vhs, w, whs, i)
    ensures OthersSame(u, uhs, w, whs, i)
  {
    forall j | 0 <= j < |uhs| && j != i
      ensures SameFor(u, uhs, w, whs, j)
    {
      assert SameFor(u, uhs, v, vhs, j) && SameFor(v, vhs, w, whs, j);
    }
  }

  lemma SamePotential(w: World, phs: seq<Phase>, w': World, phs': seq<Phase>, j: nat)
    requires SameFor(w, phs, w', phs', j)
    ensures Potential(w', phs', j) == Potential(w, phs, j)
  {
    var p := w.phils[j];
    assert Agent(Release(p.lo, p.id, j)) == j && Agent(Release(p.hi, p.id, j)) == j;
  }

  lemma GrantedLowers(w: World, phs: seq<Phase>, m: Message)
    requires Wired(w) && Locals(w, phs) && Placed(w, phs, m) && Addressed(w, m) && m.Granted?
    ensures Weight(Handle(w, m).phils[Agent(m)], NextPhase(w, phs, m), Releases(Outbox(w, m), w.phils[Agent(m)],
          Agent(m)))
            < Weight(w.phils[Agent(m)], phs[Agent(m)], 0)
  {
    var p := w.phils[m.to];
    assert LocalOk(p, phs[m.to]);
    if p.state == 0 {
      assert Releases(Outbox(w, m), p, m.to) == 0;
    } else {
      assert Releases(Outbox(w, m), p, m.to) == 2;
    }
  }

  lemma HandlerLowers(w: World, phs: seq<Phase>, m: Message)
    requires Wired(w) && Locals(w, phs) && Placed(w, phs, m) && Addressed(w, m) && !m.Think?
    ensures Weight(Handle(w, m).phils[Agent(m)], NextPhase(w, phs, m), Releases(Outbox(w, m), w.phils[Agent(m)],
          Agent(m)))
            < Weight(w.phils[Agent(m)], phs[Agent(m)], if m.Release? then 1 else 0)
  {
    if m.Granted? {
      GrantedLowers(w, phs, m);
    } else {
      assert LocalOk(w.phils[Agent(m)], phs[Agent(m)]);
    }
  }

  /** An agent's own potential goes down by what its handler did, less what it sent. */
  lemma StepAgent(w: World, phs: seq<Phase>, m: Message)
    requires Wired(w) && Locals(w, phs) && Enabled(w, m) && Placed(w, phs, m) && !m.Think? && w.mail[m] == 1
    ensures Potential(Step(w, m), NextPhases(w, phs, m), Agent(m)) < Potential(w, phs, Agent(m))
  {
    var a := Agent(m);
    var p := w.phils[a];
    HandlerLowers(w, phs, m);
    NextPhaseLocal(w, phs, m);
    StepCount(w, m, Release(p.lo, p.id, a));
    StepCount(w, m, Release(p.hi, p.id, a));
    assert Releases(Step(w, m).mail, p, a)
        == Releases(w.mail, p, a) - (if m.Release? then 1 else 0) + Releases(Outbox(w, m), p, a);
  }

  lemma OthersSameLowers(w: World, phs: seq<Phase>, w': World, phs': seq<Phase>, i: nat)
    requires i < |phs| && OthersSame(w, phs, w', phs', i) && Potential(w', phs', i) < Potential(w, phs, i)
    ensures Lower(w, phs, w', phs', i)
  {
    forall j | 0 <= j < |phs| && j != i
      ensures Potential(w', phs', j) == Potential(w, phs, j)
    {
      SamePotential(w, phs, w', phs', j);
    }
  }

  lemma StepLowers(w: World, phs: seq<Phase>, m: Message)
    requires Wired(w) && Locals(w, phs) && Enabled(w, m) && Placed(w, phs, m) && !m.Think? && w.mail[m] == 1
    ensures Lower(w, phs, Step(w, m), NextPhases(w, phs, m), Agent(m))
  {
    StepOthersSame(w, phs, m);
    StepAgent(w, phs, m);
    OthersSameLowers(w, phs, Step(w, m), NextPhases(w, phs, m), Agent(m));
  }

  // ----- finishing -----

  /** Only thinks in flight: nobody has a fork. */
  lemma OnlyThinks(w: World, phs: seq<Phase>)
    requires Account(w, phs) && forall m :: m in w.mail ==> m.Think?
    ensures forall i :: 0 <= i < |phs| ==> phs[i] == Thinking || phs[i] == Done
    ensures forall f :: 0 <= f < |w.forks| ==> w.forks[f] == 0
  {
    forall i | 0 <= i < |phs| && phs[i] != Done
      ensures phs[i] == Thinking
    {
      assert Control(i, w.phils[i], phs[i]) in w.mail;
    }
  }

  /** Every fork is free but those philosopher i has, and i has no release in flight. */
  ghost predicate Alone(w: World, phs: seq<Phase>, i: nat)
    requires i < |w.phils| == |phs|
  {
    && Releases(w.mail, w.phils[i], i) == 0
    && forall f :: 0 <= f < |w.forks| ==> w.forks[f] == 0 || Holds(w.phils[i], phs[i], f)
  }

  /** Deliveries left until a philosopher who is never denied has eaten. */
  function Distance(ph: Phase): nat {
    match ph
    case Thinking => 5
    case AskingLo => 4
    case GrantedLo => 3
    case AskingHi => 2
    case GrantedHi => 1
    case _ => 0
  }

  lemma HandlerAlone(w: World, phs: seq<Phase>, i: nat, m: Message)
    requires Wired(w) && Locals(w, phs) && i < |phs| && Distance(phs[i]) > 1
    requires m == Control(i, w.phils[i], phs[i]) && Placed(w, phs, m) && Addressed(w, m)
    requires forall f :: 0 <= f < |w.forks| ==> w.forks[f] == 0 || Holds(w.phils[i], phs[i], f)
    ensures var p, p' := w.phils[i], Handle(w, m).phils[i];
            && Distance(NextPhase(w, phs, m)) == Distance(phs[i]) - 1
            && Releases(Outbox(w, m), p, i) == 0
            && p' == p.(state := p'.state)
            && forall f :: 0 <= f < |w.forks| ==> Handle(w, m).forks[f] == 0 || Holds(p', NextPhase(w, phs, m), f)
  {
    assert LocalOk(w.phils[i], phs[i]);
  }

  lemma OneStepAlone(w: World, phs: seq<Phase>, i: nat, m: Message)
    requires Wired(w) && Locals(w, phs) && i < |phs| && Alone(w, phs, i) && Distance(phs[i]) > 1
    requires m == Control(i, w.phils[i], phs[i]) && Enabled(w, m) && Placed(w, phs, m)
    ensures Distance(NextPhase(w, phs, m)) == Distance(phs[i]) - 1
    ensures Alone(Step(w, m), NextPhases(w, phs, m), i)
    ensures Step(w, m).phils[i] == w.phils[i].(state := Step(w, m).phils[i].state)
  {
    HandlerAlone(w, phs, i, m);
    StepCount(w, m, Release(w.phils[i].lo, w.phils[i].id, i));
    StepCount(w, m, Release(w.phils[i].hi, w.phils[i].id, i));
  }

  /** With every fork free, a thinking philosopher can get both forks without anyone else moving. */
  lemma {:induction false} TakeBoth(w: World, phs: seq<Phase>, i: nat)
    returns (sched: seq<Message>, w': World, phs': seq<Phase>)
    requires Account(w, phs) && i < |phs| && Alone(w, phs, i) && Distance(phs[i]) > 0
    ensures Run(Deliver, w, sched) == Some(w') && Account(w', phs') && |phs'| == |phs|
    ensures Alone(w', phs', i) && phs'[i] == GrantedHi && w'.phils[i] == w.phils[i].(state := w'.phils[i].state)
    ensures OthersSame(w, phs, w', phs', i)
    decreases Distance(phs[i])
  {
    if Distance(phs[i]) == 1 {
      sched, w', phs' := [], w, phs;
    } else {
      var m := Control(i, w.phils[i], phs[i]);
      assert Placed(w, phs, m);
      StepKeepsAccount(w, phs, m);
      OneStepAlone(w, phs, i, m);
      StepOthersSame(w, phs, m);
      var v, vhs := Step(w, m), NextPhases(w, phs, m);
      sched, w', phs' := TakeBoth(v, vhs, i);
      OthersSameJoin(w, phs, v, vhs, w', phs', i);
      RunFirst(Deliver, w, m, v, sched);
      sched := [m] + sched;
    }
  }

  /** A meal, both forks on their way back. */
  lemma MealAlone(w: World, phs: seq<Phase>, i: nat) returns (m: Message)
    requires Account(w, phs) && i < |phs| && phs[i] == GrantedHi && Releases(w.mail, w.phils[i], i) == 0
    ensures Enabled(w, m) && Placed(w, phs, m) && Agent(m) == i && Account(Step(w, m), NextPhases(w, phs, m))
    ensures NextPhase(w, phs, m) == if w.phils[i].meals + 1 < w.phils[i].target then Thinking else Done
    ensures Releases(Step(w, m).mail, w.phils[i], i) == 2
    ensures Step(w, m).phils[i] == w.phils[i].(state := 0, meals := w.phils[i].meals + 1)
  {
    m := Control(i, w.phils[i], phs[i]);
    StepKeepsAccount(w, phs, m);
    assert LocalOk(w.phils[i], phs[i]);
    StepCount(w, m, Release(w.phils[i].lo, w.phils[i].id, i));
    StepCount(w, m, Release(w.phils[i].hi, w.phils[i].id, i));
  }

  /** With every fork free, a thinking philosopher can eat without anyone else moving. */
  lemma EatAlone(w: World, phs: seq<Phase>, i: nat) returns (sched: seq<Message>, w': World, phs': seq<Phase>)
    requires Account(w, phs) && i < |phs| && Alone(w, phs, i) && Distance(phs[i]) > 0
    ensures Run(Deliver, w, sched) == Some(w') && Account(w', phs') && |phs'| == |phs|
    ensures OthersSame(w, phs, w', phs', i)
    ensures phs'[i] == if w.phils[i].meals + 1 < w.phils[i].target then Thinking else Done
    ensures Releases(w'.mail, w'.phils[i], i) == 2
    ensures w'.phils[i] == w.phils[i].(state := 0, meals := w.phils[i].meals + 1)
  {
    var v, vhs;
    sched, v, vhs := TakeBoth(w, phs, i);
    var m := MealAlone(v, vhs, i);
    w', phs' := Step(v, m), NextPhases(v, vhs, m);
    StepOthersSame(v, vhs, m);
    OthersSameJoin(w, phs, v, vhs, w', phs', i);
    RunLast(Deliver, w, sched, v, m, w');
    sched := sched + [m];
  }

  ghost predicate Finished(w: World) {
    w.mail == multiset{} && AllFed(w)
  }

  lemma DeliverLowers(w: World, phs: seq<Phase>, m: Message)
    requires Account(w, phs) && m in w.mail && !m.Think?
    ensures Enabled(w, m) && Agent(m) < |phs| && Account(Step(w, m), NextPhases(w, phs, m))
    ensures 0 <= Total(Step(w, m), NextPhases(w, phs, m), |phs|) < Total(w, phs, |phs|)
  {
    assert Placed(w, phs, m);
    StepKeepsAccount(w, phs, m);
    StepLowers(w, phs, m);
    LowerTotal(w, phs, Step(w, m), NextPhases(w, phs, m), Agent(m), |phs|);
    TotalNonNegative(Step(w, m), NextPhases(w, phs, m), |phs|);
  }

  lemma FedLowers(w: World, phs: seq<Phase>, w': World, phs': seq<Phase>, i: nat)
    requires i < |phs| == |w.phils| && |phs'| == |w'.phils| == |phs| && Rank(phs'[i]) == 0
    requires phs[i] == Thinking && w'.phils[i] == w.phils[i].(state := 0, meals := w.phils[i].meals + 1)
    requires Releases(w.mail, w.phils[i], i) >= 0 && Releases(w'.mail, w'.phils[i], i) == 2
    ensures Potential(w', phs', i) < Potential(w, phs, i)
  {
  }

  lemma FedTotal(w: World, phs: seq<Phase>, w': World, phs': seq<Phase>, i: nat)
    requires Account(w', phs') && i < |phs| && OthersSame(w, phs, w', phs', i)
    requires phs[i] == Thinking && (phs'[i] == Thinking || phs'[i] == Done)
    requires w'.phils[i] == w.phils[i].(state := 0, meals := w.phils[i].meals + 1)
    requires Releases(w'.mail, w'.phils[i], i) == 2
    ensures 0 <= Total(w', phs', |phs|) < Total(w, phs, |phs|)
  {
    FedLowers(w, phs, w', phs', i);
    OthersSameLowers(w, phs, w', phs', i);
    LowerTotal(w, phs, w', phs', i, |phs|);
    TotalNonNegative(w', phs', |phs|);
  }

  lemma ThinkerAlone(w: World, phs: seq<Phase>, m: Message)
    requires Account(w, phs) && m in w.mail && forall x :: x in w.mail ==> x.Think?
    ensures m.to < |phs| && Alone(w, phs, m.to) && phs[m.to] == Thinking
  {
    OnlyThinks(w, phs);
    assert Placed(w, phs, m);
  }

  lemma EatOne(w: World, phs: seq<Phase>, i: nat) returns (sched: seq<Message>, w': World, phs': seq<Phase>)
    requires Account(w, phs) && i < |phs| && Alone(w, phs, i) && phs[i] == Thinking
    ensures Run(Deliver, w, sched) == Some(w') && Account(w', phs') && OthersSame(w, phs, w', phs', i)
    ensures 0 <= Total(w', phs', |phs|) < Total(w, phs, |phs|)
  {
    sched, w', phs' := EatAlone(w, phs, i);
    FedTotal(w, phs, w', phs', i);
  }

  lemma EatLowers(w: World, phs: seq<Phase>, m: Message) returns (sched: seq<Message>, w': World, phs': seq<Phase>)
    requires Account(w, phs) && m in w.mail && forall x :: x in w.mail ==> x.Think?
    ensures Run(Deliver, w, sched) == Some(w') && Account(w', phs') && |phs'| == |phs|
    ensures 0 <= Total(w', phs', |phs|) < Total(w, phs, |phs|)
    ensures OthersSame(w, phs, w', phs', m.to)
  {
    ThinkerAlone(w, phs, m);
    sched, w', phs' := EatOne(w, phs, m.to);
  }

  /** From any state that satisfies the invariant, a schedule that feeds everybody. */
  lemma {:induction false} Finish(w: World, phs: seq<Phase>) returns (sched: seq<Message>, end: World)
    requires Account(w, phs)
    ensures Run(Deliver, w, sched) == Some(end) && Finished(end)
    decreases Total(w, phs, |phs|)
  {
    if w.mail == multiset{} {
      SilentIffDone(w, phs);
      sched, end := [], w;
    } else if m :| m in w.mail && !m.Think? {
      DeliverLowers(w, phs, m);
      sched, end := Finish(Step(w, m), NextPhases(w, phs, m));
      RunFirst(Deliver, w, m, Step(w, m), sched);
      sched := [m] + sched;
    } else {
      var m :| m in w.mail;
      var first, w1, phs1 := EatLowers(w, phs, m);
      sched, end := Finish(w1, phs1);
      RunAppend(Deliver, w, first, w1, sched);
      sched := first + sched;
    }
  }

  /** No trap: from every reachable state some continuation feeds everybody and frees every fork. */
  lemma CanAlwaysFinish(w0: World, w: World)
    requires Initial(w0) && Reachable(Deliver, w0, w)
    ensures exists end :: Reachable(Deliver, w, end) && Finished(end)
  {
    ReachableInv(w0, w);
    var phs :| Account(w, phs);
    var sched, end := Finish(w, phs);
  }
}
