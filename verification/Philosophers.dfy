/** The dining-philosophers actor program: forks that grant or deny, philosophers
    that back off when the second fork is denied.  Messages wait in a bag, so they
    may be delivered in any order; a delivery runs one handler to completion. */
module Philosophers {
  import opened Wrappers

  /** A message in flight.  Actors are addressed by position; the runtime attaches
      the sending actor to every message, which is where replies go. */
  datatype Message =
    | Think(to: nat)
    | Acquire(fork: nat, pid: int, sender: nat)
    | Granted(to: nat, pid: int)
    | Denied(to: nat, pid: int)
    | Release(fork: nat, pid: int, sender: nat)

  datatype Phil = Phil(id: int, lo: nat, hi: nat, state: int, meals: int, target: int)

  /** The fields of all actors and the bag of undelivered messages. */
  datatype World = World(forks: seq<int>, phils: seq<Phil>, mail: multiset<Message>)

  // ----- the handlers, as functions of the receiver's fields -----

  function AcquireHolder(holder: int, pid: int): int {
    if holder == 0 then pid else holder
  }

  function AcquireReply(holder: int, pid: int, sender: nat): Message {
    if holder == 0 then Granted(sender, pid) else Denied(sender, pid)
  }

  function ReleaseHolder(holder: int, pid: int): int {
    if holder == pid then 0 else holder
  }

  function OnGranted(self: nat, p: Phil): (Phil, multiset<Message>) {
    if p.state == 0 then
      (p.(state := 1), multiset{Acquire(p.hi, p.id, self)})
    else
      var fed := p.(meals := p.meals + 1, state := 0);
      (fed, multiset{Release(p.hi, p.id, self), Release(p.lo, p.id, self)}
            + if fed.meals < p.target then multiset{Think(self)} else multiset{})
  }

  function OnDenied(self: nat, p: Phil): (Phil, multiset<Message>) {
    if p.state == 1 then
      (p.(state := 0), multiset{Release(p.lo, p.id, self), Think(self)})
    else
      (p, multiset{Think(self)})
  }

  // ----- delivery -----

  predicate Addressed(w: World, m: Message) {
    match m
    case Think(i) => i < |w.phils|
    case Acquire(f, _, _) => f < |w.forks|
    case Granted(i, _) => i < |w.phils|
    case Denied(i, _) => i < |w.phils|
    case Release(f, _, _) => f < |w.forks|
  }

  predicate Enabled(w: World, m: Message) {
    m in w.mail && Addressed(w, m)
  }

  /** What the receiver's handler sends. */
  function Outbox(w: World, m: Message): multiset<Message>
    requires Addressed(w, m)
  {
    match m
    case Think(i) => multiset{Acquire(w.phils[i].lo, w.phils[i].id, i)}
    case Acquire(f, pid, s) => multiset{AcquireReply(w.forks[f], pid, s)}
    case Release(_, _, _) => multiset{}
    case Granted(i, _) => OnGranted(i, w.phils[i]).1
    case Denied(i, _) => OnDenied(i, w.phils[i]).1
  }

  /** The fields after the receiver's handler has run. */
  function Handle(w: World, m: Message): World
    requires Addressed(w, m)
  {
    match m
    case Think(_) => w
    case Acquire(f, pid, _) => w.(forks := w.forks[f := AcquireHolder(w.forks[f], pid)])
    case Release(f, pid, _) => w.(forks := w.forks[f := ReleaseHolder(w.forks[f], pid)])
    case Granted(i, _) => w.(phils := w.phils[i := OnGranted(i, w.phils[i]).0])
    case Denied(i, _) => w.(phils := w.phils[i := OnDenied(i, w.phils[i]).0])
  }

  /** Take one message out of the bag, run its handler, add what the handler sends. */
  function Step(w: World, m: Message): World
    requires Enabled(w, m)
  {
    Handle(w, m).(mail := w.mail - multiset{m} + Outbox(w, m))
  }

  function Deliver(w: World, m: Message): Option<World> {
    if Enabled(w, m) then Some(Step(w, m)) else None
  }

  // ----- well-wired starting states -----

  /** Forks exist and differ per philosopher; ids are distinct and never the "free" mark 0. */
  ghost predicate Wired(w: World) {
    && (forall i :: 0 <= i < |w.phils| ==>
          && w.phils[i].id != 0
          && w.phils[i].lo < |w.forks| && w.phils[i].hi < |w.forks|
          && w.phils[i].lo != w.phils[i].hi)
    && (forall i, j :: 0 <= i < j < |w.phils| ==> w.phils[i].id != w.phils[j].id)
  }

  /** Every constructor has run: forks free, nobody fed, one think per philosopher. */
  ghost predicate Initial(w: World) {
    && Wired(w)
    && (forall f :: 0 <= f < |w.forks| ==> w.forks[f] == 0)
    && (forall i :: 0 <= i < |w.phils| ==> w.phils[i].state == 0 && w.phils[i].meals == 0)
    && (forall m :: w.mail[m] == if m.Think? && m.to < |w.phils| then 1 else 0)
  }

  /** Meals eaten by a philosopher who has stopped: the target is only tested after a meal. */
  function Quota(p: Phil): int {
    if p.target > 1 then p.target else 1
  }

  ghost predicate AllFed(w: World) {
    && (forall i :: 0 <= i < |w.phils| ==> w.phils[i].meals == Quota(w.phils[i]))
    && (forall f :: 0 <= f < |w.forks| ==> w.forks[f] == 0)
  }

  // ----- the inductive invariant -----

  /** Where a philosopher is in its cycle, named after its one control message in flight. */
  datatype Phase = Thinking | AskingLo | GrantedLo | DeniedLo | AskingHi | GrantedHi | DeniedHi | Done {
    predicate Second() { AskingHi? || GrantedHi? || DeniedHi? }
  }

  function Control(i: nat, p: Phil, ph: Phase): Message
    requires ph != Done
  {
    match ph
    case Thinking => Think(i)
    case AskingLo => Acquire(p.lo, p.id, i)
    case AskingHi => Acquire(p.hi, p.id, i)
    case GrantedLo => Granted(i, p.id)
    case GrantedHi => Granted(i, p.id)
    case DeniedLo => Denied(i, p.id)
    case DeniedHi => Denied(i, p.id)
  }

  /** A philosopher in phase ph has been granted fork f and has not yet released it. */
  predicate Holds(p: Phil, ph: Phase, f: nat) {
    (f == p.lo && (ph.GrantedLo? || ph.Second())) || (f == p.hi && ph.GrantedHi?)
  }

  ghost predicate LocalOk(p: Phil, ph: Phase) {
    && p.state == (if ph.Second() then 1 else 0)
    && 0 <= p.meals
    && (if ph.Done? then p.meals == Quota(p) else p.meals < Quota(p))
  }

  function Agent(m: Message): nat {
    match m
    case Think(i) => i
    case Granted(i, _) => i
    case Denied(i, _) => i
    case Acquire(_, _, s) => s
    case Release(_, _, s) => s
  }

  /** m is either its philosopher's control message or the release of a fork it still occupies. */
  ghost predicate Placed(w: World, phs: seq<Phase>, m: Message)
    requires |phs| == |w.phils|
  {
    && Agent(m) < |w.phils|
    && var p := w.phils[Agent(m)];
       var ph := phs[Agent(m)];
       if m.Release? then
         m.pid == p.id && (m.fork == p.lo || m.fork == p.hi) && !Holds(p, ph, m.fork)
         && m.fork < |w.forks| && w.forks[m.fork] == p.id
       else
         ph != Done && m == Control(Agent(m), p, ph)
  }

  ghost predicate Occupied(w: World, phs: seq<Phase>, f: nat, i: nat)
    requires |phs| == |w.phils| && f < |w.forks|
  {
    && i < |w.phils|
    && w.forks[f] == w.phils[i].id
    && (Holds(w.phils[i], phs[i], f) || Release(f, w.phils[i].id, i) in w.mail)
  }

  ghost predicate Locals(w: World, phs: seq<Phase>) {
    |phs| == |w.phils| && forall i :: 0 <= i < |w.phils| ==> LocalOk(w.phils[i], phs[i])
  }

  /** Nothing is in flight twice, and everything in flight is accounted for. */
  ghost predicate MailPlaced(w: World, phs: seq<Phase>)
    requires |phs| == |w.phils|
  {
    forall m :: m in w.mail ==> w.mail[m] == 1 && Placed(w, phs, m)
  }

  ghost predicate Tokens(w: World, phs: seq<Phase>)
    requires |phs| == |w.phils|
  {
    forall i :: 0 <= i < |w.phils| && phs[i] != Done ==> Control(i, w.phils[i], phs[i]) in w.mail
  }

  ghost predicate Holders(w: World, phs: seq<Phase>)
    requires |phs| == |w.phils|
  {
    forall i, f :: 0 <= i < |w.phils| && 0 <= f < |w.forks| && Holds(w.phils[i], phs[i], f)
      ==> w.forks[f] == w.phils[i].id
  }

  ghost predicate Excused(w: World, phs: seq<Phase>)
    requires |phs| == |w.phils|
  {
    forall f :: 0 <= f < |w.forks| && w.forks[f] != 0 ==> exists i: nat :: Occupied(w, phs, f, i)
  }

  ghost predicate Account(w: World, phs: seq<Phase>) {
    && Wired(w) && Locals(w, phs) && MailPlaced(w, phs)
    && Tokens(w, phs) && Holders(w, phs) && Excused(w, phs)
  }

  ghost predicate Inv(w: World) {
    exists phs :: Account(w, phs)
  }

  /** The phase a delivery moves the message's agent to. */
  function NextPhase(w: World, phs: seq<Phase>, m: Message): Phase
    requires |phs| == |w.phils| && Addressed(w, m) && Agent(m) < |w.phils|
  {
    var p := w.phils[Agent(m)];
    var ph := phs[Agent(m)];
    match m
    case Think(_) => AskingLo
    case Acquire(f, _, _) =>
      if w.forks[f] == 0 then (if ph.Second() then GrantedHi else GrantedLo)
      else (if ph.Second() then DeniedHi else DeniedLo)
    case Release(_, _, _) => ph
    case Granted(_, _) =>
      if p.state == 0 then AskingHi else if p.meals + 1 < p.target then Thinking else Done
    case Denied(_, _) => Thinking
  }

  function NextPhases(w: World, phs: seq<Phase>, m: Message): seq<Phase>
    requires |phs| == |w.phils| && Addressed(w, m) && Agent(m) < |w.phils|
  {
    phs[Agent(m) := NextPhase(w, phs, m)]
  }

  lemma PlacedIsAddressed(w: World, phs: seq<Phase>, m: Message)
    requires Wired(w) && |phs| == |w.phils| && Placed(w, phs, m)
    ensures Addressed(w, m) && Agent(m) < |phs|
  {
  }

  lemma NextPhaseLocal(w: World, phs: seq<Phase>, m: Message)
    requires Wired(w) && Locals(w, phs) && Placed(w, phs, m) && Addressed(w, m)
    ensures LocalOk(Handle(w, m).phils[Agent(m)], NextPhase(w, phs, m))
    ensures var p := w.phils[Agent(m)];
            var p' := Handle(w, m).phils[Agent(m)];
            p' == p.(state := p'.state, meals := p'.meals)
  {
    assert LocalOk(w.phils[Agent(m)], phs[Agent(m)]);
  }

  lemma OthersUntouched(w: World, m: Message, j: nat)
    requires Addressed(w, m) && j < |w.phils|
    ensures |Handle(w, m).phils| == |w.phils| && |Handle(w, m).forks| == |w.forks|
    ensures j != Agent(m) ==> Handle(w, m).phils[j] == w.phils[j]
  {
  }

  lemma StepKeepsLocals(w: World, phs: seq<Phase>, m: Message)
    requires Wired(w) && Locals(w, phs) && Placed(w, phs, m) && Addressed(w, m)
    ensures Wired(Handle(w, m)) && Locals(Handle(w, m), NextPhases(w, phs, m))
  {
    NextPhaseLocal(w, phs, m);
    forall j | 0 <= j < |w.phils|
      ensures Handle(w, m).phils[j] == w.phils[j].(state := Handle(w, m).phils[j].state, meals := Handle(w,
            m).phils[j].meals)
      ensures LocalOk(Handle(w, m).phils[j], NextPhases(w, phs, m)[j])
    {
      OthersUntouched(w, m, j);
      assert LocalOk(w.phils[j], phs[j]);
    }
  }

  lemma StepCount(w: World, m: Message, x: Message)
    requires Enabled(w, m)
    ensures Step(w, m).mail[x] == w.mail[x] - (if x == m then 1 else 0) + Outbox(w, m)[x]
  {
  }

  lemma OutboxAgent(w: World, phs: seq<Phase>, m: Message, x: Message)
    requires Wired(w) && |phs| == |w.phils| && Placed(w, phs, m) && Addressed(w, m) && x in Outbox(w, m)
    ensures Agent(x) == Agent(m)
  {
  }

  /** A handler never sends what is already in flight. */
  lemma OutboxNew(w: World, phs: seq<Phase>, m: Message, x: Message)
    requires Wired(w) && Locals(w, phs) && Placed(w, phs, m) && Addressed(w, m)
    requires Placed(w, phs, x) && x != m
    ensures x !in Outbox(w, m)
  {
    if x in Outbox(w, m) {
      OutboxAgent(w, phs, m, x);
    }
  }

  /** Undelivered messages stay justified. */
  lemma OldMailStays(w: World, phs: seq<Phase>, m: Message, x: Message)
    requires Wired(w) && Locals(w, phs) && Placed(w, phs, m) && Addressed(w, m)
    requires Placed(w, phs, x) && x != m
    ensures Placed(Handle(w, m), NextPhases(w, phs, m), x)
  {
    assert LocalOk(w.phils[Agent(m)], phs[Agent(m)]);
  }

  lemma GrantedMailPlaced(w: World, phs: seq<Phase>, m: Message, x: Message)
    requires Wired(w) && Locals(w, phs) && Holders(w, phs) && Placed(w, phs, m) && Addressed(w, m) && m.Granted?
    requires x in Outbox(w, m)
    ensures Outbox(w, m)[x] == 1 && Placed(Handle(w, m), NextPhases(w, phs, m), x)
  {
    var p := w.phils[m.to];
    assert LocalOk(p, phs[m.to]);
    if p.state == 0 {
      assert x == Acquire(p.hi, p.id, m.to);
    } else {
      assert Holds(p, phs[m.to], p.lo) && Holds(p, phs[m.to], p.hi);
      assert x == Release(p.hi, p.id, m.to) || x == Release(p.lo, p.id, m.to) || x == Think(m.to);
    }
  }

  /** What a handler sends is sent once and is justified by the sender's new phase. */
  lemma NewMailPlaced(w: World, phs: seq<Phase>, m: Message, x: Message)
    requires Wired(w) && Locals(w, phs) && Holders(w, phs) && Placed(w, phs, m) && Addressed(w, m)
    requires x in Outbox(w, m)
    ensures Outbox(w, m)[x] == 1 && Placed(Handle(w, m), NextPhases(w, phs, m), x)
  {
    if m.Granted? {
      GrantedMailPlaced(w, phs, m, x);
    } else if m.Denied? {
      var p := w.phils[m.to];
      assert x == Release(p.lo, p.id, m.to) || x == Think(m.to);
    }
  }

  lemma StepKeepsMail(w: World, phs: seq<Phase>, m: Message)
    requires Account(w, phs) && Enabled(w, m) && Placed(w, phs, m)
    ensures MailPlaced(Step(w, m), NextPhases(w, phs, m))
  {
    var w' := Step(w, m);
    forall x | x in w'.mail
      ensures w'.mail[x] == 1 && Placed(w', NextPhases(w, phs, m), x)
    {
      StepCount(w, m, x);
      if x in w.mail && x != m {
        OutboxNew(w, phs, m, x);
        OldMailStays(w, phs, m, x);
      } else {
        NewMailPlaced(w, phs, m, x);
      }
    }
  }

  /** After handling its control message, an agent that is not done has sent the next one. */
  lemma NextControlSent(w: World, phs: seq<Phase>, m: Message)
    requires Wired(w) && Locals(w, phs) && Placed(w, phs, m) && Addressed(w, m) && !m.Release?
    requires NextPhase(w, phs, m) != Done
    ensures Control(Agent(m), Handle(w, m).phils[Agent(m)], NextPhase(w, phs, m)) in Outbox(w, m)
  {
    assert LocalOk(w.phils[Agent(m)], phs[Agent(m)]);
  }

  lemma TokenKept(w: World, phs: seq<Phase>, m: Message, i: nat)
    requires Account(w, phs) && Enabled(w, m) && Placed(w, phs, m)
    requires i < |phs| && NextPhases(w, phs, m)[i] != Done
    ensures Control(i, Handle(w, m).phils[i], NextPhases(w, phs, m)[i]) in Step(w, m).mail
  {
    var c := Control(i, Handle(w, m).phils[i], NextPhases(w, phs, m)[i]);
    StepCount(w, m, c);
    if i == Agent(m) && !m.Release? {
      NextControlSent(w, phs, m);
    } else {
      assert c == Control(i, w.phils[i], phs[i]) && c in w.mail && c != m;
    }
  }

  lemma StepKeepsTokens(w: World, phs: seq<Phase>, m: Message)
    requires Account(w, phs) && Enabled(w, m) && Placed(w, phs, m)
    ensures Tokens(Step(w, m), NextPhases(w, phs, m))
  {
    forall i | 0 <= i < |w.phils| && NextPhases(w, phs, m)[i] != Done
      ensures Control(i, Handle(w, m).phils[i], NextPhases(w, phs, m)[i]) in Step(w, m).mail
    {
      TokenKept(w, phs, m, i);
    }
  }

  lemma StepKeepsHolders(w: World, phs: seq<Phase>, m: Message)
    requires Wired(w) && Locals(w, phs) && Holders(w, phs) && Placed(w, phs, m) && Addressed(w, m)
    ensures Holders(Handle(w, m), NextPhases(w, phs, m))
  {
  }

  /** The occupant of a fork keeps its excuse, unless this delivery freed the fork. */
  lemma OccupantStays(w: World, phs: seq<Phase>, m: Message, f: nat, i: nat)
    requires Wired(w) && Locals(w, phs) && Placed(w, phs, m) && Addressed(w, m)
    requires f < |w.forks| && i < |w.phils| && w.forks[f] == w.phils[i].id
    requires Holds(w.phils[i], phs[i], f) || Placed(w, phs, Release(f, w.phils[i].id, i))
    ensures Handle(w, m).forks[f] == (if m == Release(f, w.phils[i].id, i) then 0 else w.forks[f])
    ensures Holds(w.phils[i], phs[i], f) ==>
              Holds(Handle(w, m).phils[i], NextPhases(w, phs, m)[i], f) || Release(f, w.phils[i].id, i) in Outbox(w, m)
  {
    var p := w.phils[i];
    if m.Granted? && m.to == i && p.state != 0 {
      assert Release(p.hi, p.id, i) in Outbox(w, m) && Release(p.lo, p.id, i) in Outbox(w, m);
    }
  }

  lemma OccupantKept(w: World, phs: seq<Phase>, m: Message, f: nat, i: nat)
    requires Account(w, phs) && Enabled(w, m) && Placed(w, phs, m)
    requires f < |w.forks| && Occupied(w, phs, f, i) && Handle(w, m).forks[f] != 0
    ensures Occupied(Step(w, m), NextPhases(w, phs, m), f, i)
  {
    var r := Release(f, w.phils[i].id, i);
    OccupantStays(w, phs, m, f, i);
    StepCount(w, m, r);
  }

  /** A fork that was free and is no longer has just been granted to the asking agent. */
  lemma NewOccupant(w: World, phs: seq<Phase>, m: Message, f: nat)
    requires Wired(w) && Locals(w, phs) && Placed(w, phs, m) && Addressed(w, m)
    requires f < |w.forks| && w.forks[f] == 0 && Handle(w, m).forks[f] != 0
    ensures var a := Agent(m);
            var p := Handle(w, m).phils[a];
            Handle(w, m).forks[f] == p.id && Holds(p, NextPhase(w, phs, m), f)
  {
    assert m.Acquire? && m.fork == f;
    assert LocalOk(w.phils[m.sender], phs[m.sender]);
  }

  lemma StepKeepsExcused(w: World, phs: seq<Phase>, m: Message)
    requires Account(w, phs) && Enabled(w, m) && Placed(w, phs, m)
    ensures Excused(Step(w, m), NextPhases(w, phs, m))
  {
    var w', phs' := Step(w, m), NextPhases(w, phs, m);
    forall f | 0 <= f < |w'.forks| && w'.forks[f] != 0
      ensures exists i: nat :: Occupied(w', phs', f, i)
    {
      if w.forks[f] != 0 {
        var i: nat :| Occupied(w, phs, f, i);
        OccupantKept(w, phs, m, f, i);
      } else {
        NewOccupant(w, phs, m, f);
        assert Occupied(w', phs', f, Agent(m));
      }
    }
  }

  lemma StepKeepsAccount(w: World, phs: seq<Phase>, m: Message)
    requires Account(w, phs) && m in w.mail
    ensures Enabled(w, m) && Agent(m) < |phs|
    ensures Account(Step(w, m), NextPhases(w, phs, m))
  {
    PlacedIsAddressed(w, phs, m);
    StepKeepsLocals(w, phs, m);
    StepKeepsMail(w, phs, m);
    StepKeepsTokens(w, phs, m);
    StepKeepsHolders(w, phs, m);
    StepKeepsExcused(w, phs, m);
  }
}
