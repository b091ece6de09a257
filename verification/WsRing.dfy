/** The outbound ring of a WebSocket connection: a bounded queue in a fixed array. */
module WsRing {

  const MAX_PENDING := 32

  /** The array slot k places after i, in an array of n slots. */
  function Around(i: nat, k: nat, n: nat): nat
    requires i < n && k <= n
  {
    if i + k < n then i + k else i + k - n
  }

  lemma NextIs(i: nat, n: nat)
    requires i < n
    ensures (i + 1) % n == Around(i, 1, n)
  {
    if i + 1 == n {
      assert (i + 1) % n == 0;
    } else {
      assert (i + 1) % n == i + 1;
    }
  }

  datatype Ring<M> = Ring(buf: seq<M>, head: nat, tail: nat) {

    predicate Valid() {
      head < |buf| && tail < |buf|
    }

    function Count(): nat
      requires Valid()
    {
      if head >= tail then head - tail else head + |buf| - tail
    }

    /** The queued messages, oldest first. */
    function Pending(): (q: seq<M>)
      requires Valid()
      ensures |q| == Count() < |buf|
    {
      seq(Count(), k requires 0 <= k < Count() => buf[Around(tail, k, |buf|)])
    }

    predicate Full()
      requires Valid()
    {
      (head + 1) % |buf| == tail
    }

    function Pushed(msg: M): (r: Ring<M>)
      requires Valid()
      ensures r.Valid()
    {
      if Full() then this
      else
        NextIs(head, |buf|);
        Ring(buf[head := msg], (head + 1) % |buf|, tail)
    }

    function Popped(): (r: Ring<M>)
      requires Valid()
      ensures r.Valid()
    {
      if tail == head then this
      else
        NextIs(tail, |buf|);
        Ring(buf, head, (tail + 1) % |buf|)
    }
  }

  /** A push appends, or is dropped exactly when one slot less than the array has is taken. */
  lemma PushAppends<M>(r: Ring<M>, msg: M)
    requires r.Valid()
    ensures r.Full() <==> |r.Pending()| == |r.buf| - 1
    ensures |r.Pushed(msg).buf| == |r.buf|
    ensures r.Pushed(msg).Pending() == if r.Full() then r.Pending() else r.Pending() + [msg]
  {
    NextIs(r.head, |r.buf|);
    if !r.Full() {
      var q := r.Pushed(msg);
      assert q.Count() == r.Count() + 1;
      assert Around(r.tail, r.Count(), |r.buf|) == r.head;
      forall k | 0 <= k < r.Count()
        ensures q.Pending()[k] == r.Pending()[k]
      {
        assert Around(r.tail, k, |r.buf|) != r.head;
      }
    }
  }

  /** A pop takes the oldest message. */
  lemma PopTakesOldest<M>(r: Ring<M>)
    requires r.Valid()
    ensures r.head == r.tail <==> r.Pending() == []
    ensures r.head == r.tail ==> r.Popped() == r
    ensures r.head != r.tail ==>
              && r.buf[r.tail] == r.Pending()[0] && r.Popped().Pending() == r.Pending()[1..]
              && |r.Popped().buf| == |r.buf|
  {
    NextIs(r.tail, |r.buf|);
    if r.head != r.tail {
      var q := r.Popped();
      assert q.Count() == r.Count() - 1;
      forall k | 0 <= k < q.Count()
        ensures q.Pending()[k] == r.Pending()[k + 1]
      {
        assert Around(q.tail, k, |r.buf|) == Around(r.tail, k + 1, |r.buf|);
      }
    }
  }

  /** What a pop reports: nothing to send, the last message, or a message with more behind it. */
  datatype PopResult = Nothing | Last | More

  class ConnQueue<M> {
    const buf: array<M>
    var head: nat
    var tail: nat

    function Snapshot(): Ring<M>
      reads this, buf
    {
      Ring(buf[..], head, tail)
    }

    ghost predicate Valid()
      reads this, buf
    {
      Snapshot().Valid()
    }

    constructor (blank: M)
      ensures Valid() && fresh(buf) && buf.Length == 32 && Snapshot().Pending() == []
    {
      buf := new M[MAX_PENDING](_ => blank);
      head, tail := 0, 0;
    }

    /** Queues a message, or drops it when the ring is full. */
    method Push(msg: M) returns (accepted: bool)
      requires Valid()
      modifies this`head, buf
      ensures Valid() && Snapshot() == old(Snapshot()).Pushed(msg)
      ensures accepted == (|old(Snapshot().Pending())| < buf.Length - 1)
      ensures Snapshot().Pending() == if accepted then old(Snapshot().Pending()) + [msg] else old(Snapshot().Pending())
    {
      PushAppends(Snapshot(), msg);
      var next := (head + 1) % buf.Length;
      accepted := next != tail;
      if accepted {
        buf[head] := msg;
        head := next;
        assert buf[..] == old(buf[..])[old(head) := msg];
      }
    }

    method Pop(blank: M) returns (r: PopResult, msg: M)
      requires Valid()
      modifies this`tail
      ensures Valid() && Snapshot() == old(Snapshot()).Popped()
      ensures var was := old(Snapshot().Pending());
              match r
              case Nothing => was == [] && Snapshot() == old(Snapshot())
              case Last => was == [msg] && Snapshot().Pending() == []
              case More => |was| > 1 && was == [msg] + Snapshot().Pending()
    {
      PopTakesOldest(Snapshot());
      if tail == head {
        return Nothing, blank;
      }
      msg := buf[tail];
      tail := (tail + 1) % buf.Length;
      PopTakesOldest(Snapshot());
      r := if tail != head then More else Last;
    }
  }
}

/** Pushing threads and the service thread around one ring, interleaved in any order. */
module WsDelivery {
  import opened Wrappers
  import opened Schedules
  import opened WsRing

  /** Where the service thread is: waiting for the socket, called back, holding a popped message
      (and whether more were queued behind it), or about to ask to be called again. */
  datatype Writer<M> = Idle | Called | Writing(msg: M, more: bool) | MustAsk

  /** waiting counts the pushers between their queue update and their request to be called back;
      accepted and sent are histories. */
  datatype World<M> = World(
    ring: Ring<M>,
    requested: bool,
    waiting: nat,
    writer: Writer<M>,
    accepted: seq<M>,
    sent: seq<M>)

  datatype Move<M> = Push(msg: M) | Request | Wake | Pop | Write | Ask

  function Next<M>(w: World<M>, m: Move<M>): Option<World<M>> {
    if !w.ring.Valid() then None
    else
      match m
      case Push(msg) =>
        var accepted := if w.ring.Full() then w.accepted else w.accepted + [msg];
        Some(w.(ring := w.ring.Pushed(msg), waiting := w.waiting + 1, accepted := accepted))
      case Request =>
        if w.waiting == 0 then None else Some(w.(waiting := w.waiting - 1, requested := true))
      case Wake =>
        if w.requested && w.writer.Idle? then Some(w.(requested := false, writer := Called)) else None
      case Pop =>
        if !w.writer.Called? then None
        else if w.ring.tail == w.ring.head then Some(w.(writer := Idle))
        else
          var after := w.ring.Popped();
          Some(w.(ring := after, writer := Writing(w.ring.buf[w.ring.tail], after.tail != after.head)))
      case Write =>
        if !w.writer.Writing? then None
        else Some(w.(sent := w.sent + [w.writer.msg], writer := if w.writer.more then MustAsk else Idle))
      case Ask =>
        if w.writer.MustAsk? then Some(w.(requested := true, writer := Idle)) else None
  }

  ghost predicate Initial<M>(w: World<M>) {
    && w.ring.Valid() && w.ring.head == w.ring.tail && !w.requested && w.waiting == 0
    && w.writer == Idle && w.accepted == [] && w.sent == []
  }

  /** A fresh connection is in such a state. */
  lemma FreshConnection<M>(buf: seq<M>)
    requires buf != []
    ensures Initial(World(Ring(buf, 0, 0), false, 0, Idle, [], []))
  {
  }

  function InHand<M>(writer: Writer<M>): seq<M> {
    if writer.Writing? then [writer.msg] else []
  }

  /** Sent, in hand and queued are the accepted messages, in the order they were accepted. */
  ghost predicate InOrder<M>(w: World<M>) {
    w.ring.Valid() && w.accepted == w.sent + InHand(w.writer) + w.ring.Pending()
  }

  /** While messages are queued, somebody has asked or is about to ask to be called back. */
  ghost predicate WakeupDue<M>(w: World<M>) {
    && w.ring.Valid()
    && (w.ring.Pending() != [] ==>
          || w.requested || w.waiting > 0
          || w.writer.Called? || w.writer.MustAsk? || (w.writer.Writing? && w.writer.more))
  }

  ghost predicate Inv<M>(w: World<M>) {
    InOrder(w) && WakeupDue(w)
  }

  lemma PushKeeps<M>(w: World<M>, msg: M)
    requires Inv(w)
    ensures Inv(Next(w, Push(msg)).value)
  {
    PushAppends(w.ring, msg);
    assert w.sent + InHand(w.writer) + (w.ring.Pending() + [msg]) == w.accepted + [msg];
  }

  lemma TakeInHand<M>(sent: seq<M>, queued: seq<M>)
    requires queued != []
    ensures sent + [] + queued == sent + [queued[0]] + queued[1..]
  {
  }

  lemma PopKeeps<M>(w: World<M>)
    requires Inv(w) && w.writer.Called?
    ensures Inv(Next(w, Pop).value)
  {
    PopTakesOldest(w.ring);
    if w.ring.tail != w.ring.head {
      TakeInHand(w.sent, w.ring.Pending());
      PopTakesOldest(w.ring.Popped());
    }
  }

  /** The service thread takes what the queue's own pop takes and notes whether more is queued; an empty
      queue sends it back to waiting. */
  lemma PopTakes<M>(w: World<M>, after: World<M>)
    requires Next(w, Pop) == Some(after)
    ensures after.accepted == w.accepted && after.sent == w.sent && after.requested == w.requested
    ensures after.waiting == w.waiting
    ensures var q := w.ring.Pending();
            if q == [] then after.writer == Idle && after.ring.Pending() == []
            else after.writer == Writing(q[0], |q| > 1) && after.ring.Pending() == q[1..]
  {
    PopTakesOldest(w.ring);
    if w.ring.tail != w.ring.head {
      PopTakesOldest(w.ring.Popped());
    }
  }

  lemma StepKeeps<M>(w: World<M>, m: Move<M>)
    requires Inv(w) && Next(w, m).Some?
    ensures Inv(Next(w, m).value)
  {
    match m
    case Push(msg) => PushKeeps(w, msg);
    case Pop => PopKeeps(w);
    case Write => assert w.sent + [w.writer.msg] + [] == w.sent + [w.writer.msg];
    case Request =>
    case Wake =>
    case Ask =>
  }

  /** In every interleaving of pushers and writer: first in first out, at most one message fewer
      than the ring has slots, and no lost wakeup. */
  lemma EveryRun<M(!new)>(w: World<M>, moves: seq<Move<M>>, v: World<M>)
    requires Initial(w) && Run(Next<M>, w, moves) == Some(v)
    ensures v.ring.Valid() && v.accepted == v.sent + InHand(v.writer) + v.ring.Pending()
    ensures WakeupDue(v) && |v.ring.Pending()| <= |v.ring.buf| - 1
  {
    PopTakesOldest(w.ring);
    forall u: World<M>, m: Move<M> | Inv(u) && Next(u, m).Some?
      ensures Inv(Next(u, m).value)
    {
      StepKeeps(u, m);
    }
    Invariant(Next<M>, (u: World<M>) => Inv(u), w, moves);
  }

  // ----- everything accepted is sent -----

  ghost predicate Quiet<M>(w: World<M>) {
    !w.requested && w.waiting == 0 && w.writer.Idle?
  }

  /** Without pushes, the system stops only when all accepted messages are sent. */
  lemma StopsSent<M>(w: World<M>)
    requires Inv(w)
    ensures (forall m: Move<M> :: m.Push? || Next(w, m).None?) <==> Quiet(w)
    ensures Quiet(w) ==> w.ring.Pending() == [] && w.sent == w.accepted
  {
    if !Quiet(w) {
      var m: Move<M> := Busy(w);
      assert Next(w, m).Some?;
    }
  }

  /** A step some thread can take other than a push. */
  function Busy<M>(w: World<M>): Move<M> {
    if w.waiting > 0 then Request
    else match w.writer
         case Idle => Wake
         case Called => Pop
         case Writing(_, _) => Write
         case MustAsk => Ask
  }

  function WriterWork<M>(writer: Writer<M>): nat {
    match writer
    case Idle => 0
    case Called => 1
    case Writing(_, more) => if more then 4 else 1
    case MustAsk => 3
  }

  /** Bounds the steps left to take without further pushes. */
  function Work<M>(w: World<M>): nat
    requires w.ring.Valid()
  {
    4 * w.ring.Count() + 3 * w.waiting + (if w.requested then 2 else 0) + WriterWork(w.writer)
  }

  lemma StepWorks<M>(w: World<M>, m: Move<M>)
    requires Next(w, m).Some? && !m.Push?
    ensures Next(w, m).value.ring.Valid() && Work(Next(w, m).value) < Work(w)
  {
    if m.Pop? {
      PopTakesOldest(w.ring);
    }
  }

  /** Any schedule without pushes is over within Work(w) steps. */
  lemma {:induction false} DrainBound<M>(w: World<M>, moves: seq<Move<M>>)
    requires w.ring.Valid() && Run(Next<M>, w, moves).Some? && forall m :: m in moves ==> !m.Push?
    ensures |moves| <= Work(w)
    decreases |moves|
  {
    if moves != [] {
      assert moves[0] in moves;
      StepWorks(w, moves[0]);
      assert forall m :: m in moves[1..] ==> m in moves;
      DrainBound(Next(w, moves[0]).value, moves[1..]);
    }
  }

  /** From every reachable state, letting the threads run on sends everything accepted so far. */
  lemma {:induction false} Drain<M>(w: World<M>) returns (moves: seq<Move<M>>, v: World<M>)
    requires Inv(w)
    ensures Run(Next<M>, w, moves) == Some(v) && (forall m :: m in moves ==> !m.Push?)
    ensures Inv(v) && Quiet(v) && v.accepted == w.accepted && v.sent == w.accepted
    decreases Work(w)
  {
    StopsSent(w);
    if Quiet(w) {
      moves, v := [], w;
    } else {
      var m: Move<M> := Busy(w);
      var u := Next(w, m).value;
      StepKeeps(w, m);
      StepWorks(w, m);
      var rest;
      rest, v := Drain(u);
      moves := [m] + rest;
      RunFirst(Next<M>, w, m, u, rest);
    }
  }
}
