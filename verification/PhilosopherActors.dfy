/** The two actor classes with their fields and handlers, and the runtime that delivers one
    message at a time.  Each handler is proved against its function in module Philosophers. */
module PhilosopherActors {
  import opened Wrappers
  import opened Schedules
  import opened Philosophers
  import opened PhilosopherRuns
  import opened PhilosopherFairness
  import opened PhilosopherRounds
  import opened PhilosopherSpins
  import opened PhilosopherCycles

  class Fork {
    var holder: int

    constructor ()
      ensures holder == 0
    {
      holder := 0;
    }

    method Acquire(pid: int, sender: nat) returns (reply: Message)
      modifies this
      ensures holder == AcquireHolder(old(holder), pid)
      ensures reply == AcquireReply(old(holder), pid, sender)
    {
      if holder == 0 {
        holder := pid;
        reply := Message.Granted(sender, pid);
      } else {
        reply := Message.Denied(sender, pid);
      }
    }

    method Release(pid: int)
      modifies this
      ensures holder == ReleaseHolder(old(holder), pid)
    {
      if holder == pid {
        holder := 0;
      }
    }
  }

  class Philosopher {
    const self: nat
    var id: int
    var lo: nat
    var hi: nat
    var state: int
    var meals: int
    var target: int

    ghost function Value(): Phil
      reads this
    {
      Phil(id, lo, hi, state, meals, target)
    }

    constructor (self: nat, i: int, l: nat, h: nat)
      ensures this.self == self && Value() == Phil(i, l, h, 0, 0, 3)
    {
      this.self := self;
      id, lo, hi := i, l, h;
      state, meals, target := 0, 0, 3;
    }

    method Think() returns (sent: multiset<Message>)
      ensures sent == multiset{Message.Acquire(lo, id, self)}
    {
      sent := multiset{Message.Acquire(lo, id, self)};
    }

    method Granted(pid: int) returns (sent: multiset<Message>)
      modifies this
      ensures Value() == OnGranted(self, old(Value())).0
      ensures sent == OnGranted(self, old(Value())).1
    {
      if state == 0 {
        state := 1;
        sent := multiset{Message.Acquire(hi, id, self)};
      } else {
        meals := meals + 1;
        sent := multiset{Message.Release(hi, id, self), Message.Release(lo, id, self)};
        state := 0;
        if meals < target {
          sent := sent + multiset{Message.Think(self)};
        }
      }
    }

    method Denied(pid: int) returns (sent: multiset<Message>)
      modifies this
      ensures Value() == OnDenied(self, old(Value())).0
      ensures sent == OnDenied(self, old(Value())).1
    {
      sent := multiset{};
      if state == 1 {
        sent := multiset{Message.Release(lo, id, self)};
        state := 0;
      }
      sent := sent + multiset{Message.Think(self)};
    }
  }

  method FiveForks() returns (fs: seq<Fork>)
    ensures |fs| == 5 && forall i :: 0 <= i < 5 ==> fresh(fs[i]) && fs[i].holder == 0
    ensures forall i, j :: 0 <= i < j < 5 ==> fs[i] != fs[j]
  {
    var f0 := new Fork();
    var f1 := new Fork();
    var f2 := new Fork();
    var f3 := new Fork();
    var f4 := new Fork();
    fs := [f0, f1, f2, f3, f4];
  }

  method FivePhilosophers() returns (ps: seq<Philosopher>)
    ensures |ps| == 5 && forall i :: 0 <= i < 5 ==> fresh(ps[i]) && ps[i].self == i
    ensures forall i, j :: 0 <= i < j < 5 ==> ps[i] != ps[j]
    ensures forall i :: 0 <= i < 5 ==> ps[i].Value() == Shipped().phils[i]
  {
    var p0 := new Philosopher(0, 1, 0, 1);
    var p1 := new Philosopher(1, 2, 1, 2);
    var p2 := new Philosopher(2, 3, 2, 3);
    var p3 := new Philosopher(3, 4, 3, 4);
    var p4 := new Philosopher(4, 5, 0, 4);
    ps := [p0, p1, p2, p3, p4];
  }

  /** All actors of a program and the messages nobody has handled yet. */
  class Table {
    const forks: seq<Fork>
    const phils: seq<Philosopher>
    var mail: multiset<Message>

    ghost predicate Valid() {
      && (forall i, j :: 0 <= i < j < |forks| ==> forks[i] != forks[j])
      && (forall i, j :: 0 <= i < j < |phils| ==> phils[i] != phils[j])
      && (forall i :: 0 <= i < |phils| ==> phils[i].self == i)
    }

    ghost function Holders(): seq<int>
      reads forks
    {
      seq(|forks|, i requires 0 <= i < |forks| reads forks => forks[i].holder)
    }

    ghost function Phils(): seq<Phil>
      reads phils
    {
      seq(|phils|, i requires 0 <= i < |phils| reads phils => phils[i].Value())
    }

    ghost function State(): World
      reads this, forks, phils
    {
      World(Holders(), Phils(), mail)
    }

    /** The shipped program: five forks, five philosophers, the last one taking fork 0 first. */
    constructor Five()
      ensures Valid()
      ensures Holders() == Shipped().forks && Phils() == Shipped().phils && mail == Shipped().mail
    {
      var fs := FiveForks();
      var ps := FivePhilosophers();
      forks := fs;
      phils := ps;
      mail := multiset{Message.Think(0), Message.Think(1), Message.Think(2), Message.Think(3), Message.Think(4)};
    }

    /** Take m out of the bag and run its receiver's handler to completion. */
    method Receive(m: Message)
      requires Valid() && Enabled(State(), m)
      modifies this, forks, phils
      ensures Holders() == Step(old(State()), m).forks
      ensures Phils() == Step(old(State()), m).phils
      ensures mail == Step(old(State()), m).mail
    {
      ghost var w := State();
      var sent := Dispatch(m, w);
      mail := mail - multiset{m} + sent;
      StepParts(w, m);
    }

    method Dispatch(m: Message, ghost w: World) returns (sent: multiset<Message>)
      requires Valid() && Addressed(w, m) && w.forks == Holders() && w.phils == Phils()
      modifies forks, phils
      ensures Holders() == Handle(w, m).forks && Phils() == Handle(w, m).phils && sent == Outbox(w, m)
    {
      if m.Acquire? || m.Release? {
        sent := AtFork(m, w);
      } else {
        sent := AtPhil(m, w);
      }
    }

    method AtFork(m: Message, ghost w: World) returns (sent: multiset<Message>)
      requires Valid() && Addressed(w, m) && (m.Acquire? || m.Release?) && w.forks == Holders() && w.phils == Phils()
      modifies forks
      ensures Holders() == Handle(w, m).forks && Phils() == w.phils && sent == Outbox(w, m)
    {
      sent := multiset{};
      if m.Acquire? {
        var reply := forks[m.fork].Acquire(m.pid, m.sender);
        sent := multiset{reply};
      } else {
        forks[m.fork].Release(m.pid);
      }
      assert Holders() == Handle(w, m).forks;
    }

    method AtPhil(m: Message, ghost w: World) returns (sent: multiset<Message>)
      requires Valid() && Addressed(w, m) && !m.Acquire? && !m.Release? && w.forks == Holders() && w.phils == Phils()
      modifies phils
      ensures Holders() == w.forks && Phils() == Handle(w, m).phils && sent == Outbox(w, m)
    {
      match m {
        case Think(i) => sent := phils[i].Think();
        case Granted(i, pid) => sent := phils[i].Granted(pid);
        case Denied(i, pid) => sent := phils[i].Denied(pid);
      }
      assert Phils() == Handle(w, m).phils;
    }
  }

  lemma StepParts(w: World, m: Message)
    requires Enabled(w, m)
    ensures Step(w, m) == World(Handle(w, m).forks, Handle(w, m).phils, w.mail - multiset{m} + Outbox(w, m))
  {
  }

  function Shipped(): World {
    World([0, 0, 0, 0, 0],
          [Phil(1, 0, 1, 0, 0, 3), Phil(2, 1, 2, 0, 0, 3), Phil(3, 2, 3, 0, 0, 3),
           Phil(4, 3, 4, 0, 0, 3), Phil(5, 0, 4, 0, 0, 3)],
          multiset{Think(0), Think(1), Think(2), Think(3), Think(4)})
  }

  lemma ShippedIsInitial()
    ensures Initial(Shipped())
  {
  }

  /** The shipped program is an instance of what is proved about all well-wired tables: it can
      always finish, and it is silent exactly after three meals each with all forks back. */
  lemma ShippedFinishes(w: World)
    requires Reachable(Deliver, Shipped(), w)
    ensures exists end :: Reachable(Deliver, w, end) && Finished(end)
    ensures w.mail == multiset{} <==>
              && (forall p :: p in w.phils ==> p.meals == 3)
              && (forall holder :: holder in w.forks ==> holder == 0)
  {
    ShippedIsInitial();
    CanAlwaysFinish(Shipped(), w);
    SilentIffFed(Shipped(), w);
    ReachableKeepsWiring(Shipped(), w);
    ShippedTargets(Shipped(), w);
  }

  lemma ShippedTargets(w0: World, w: World)
    requires SameWiring(w0, w) && forall p :: p in w0.phils ==> p.target == 3
    ensures AllFed(w) <==>
              (forall p :: p in w.phils ==> p.meals == 3) && (forall holder :: holder in w.forks ==> holder == 0)
  {
    assert forall j :: 0 <= j < |w.phils| ==>
             w0.phils[j] in w0.phils && Quota(w.phils[j]) == 3 && w.phils[j] in w.phils;
    assert forall f :: 0 <= f < |w.forks| ==> w.forks[f] in w.forks;
  }

  /** Fair runs of the shipped program: 136 rounds are enough, whatever the order within them. */
  lemma ShippedFairlyFinishes(rounds: seq<seq<Message>>, end: World)
    requires FairRun(Shipped(), rounds, end) && |rounds| >= 136
    ensures Finished(end)
  {
    ShippedIsInitial();
    OrderedAcyclic(Shipped());
    ShippedMeals();
    FairBound(Shipped(), rounds, end);
  }

  lemma ShippedMeals()
    ensures Left(Shipped()) == 15
  {
    var w := Shipped();
    assert MealsLeft(w, 1) == 3 && MealsLeft(w, 2) == 6;
    assert MealsLeft(w, 3) == 9 && MealsLeft(w, 4) == 12;
  }

  /** But not every schedule of it ends: once philosopher 1 has fork 0, philosopher 5 can ask for it,
      be denied and think again for ever. */
  lemma ShippedSpins()
    ensures !Bounded(Shipped())
    ensures exists w :: Reachable(Deliver, Shipped(), w) && Think(4) in w.mail && w.forks != [] && w.forks[0] != 0
  {
    var w := Shipped();
    ShippedIsInitial();
    assert Uses(w.phils[0], 0) && Uses(w.phils[4], 0);
    BoundedIff(w);
    var v, phs := SharedTaken(w, 4, 0, 0);
  }
}
