/**
 When everything written to the two ends of a channel is read: each read brings that nearer,
 and in the end either all calls were delivered or both ends wait for each other. Exactly
 which steps lead to that.
 */
module IpcProgress {
  import opened Prelude
  import opened Ipc

  /** There is nothing left to read. */
  predicate Quiet(p: Pair) {
    p.a.out == [] && p.b.out == []
  }

  /** Both ends wait for an acknowledgement that waits in the other end's queue. */
  predicate Stuck(p: Pair) {
    Quiet(p) && p.a.queue.Some? && p.b.queue.Some?
  }

  /** Each end has read everything the other was asked to send. */
  predicate AllDelivered(p: Pair) {
    p.b.received == p.a.calls && p.a.received == p.b.calls
  }

  lemma QuietEnd(x: End, y: End)
    requires PairOk(x, y) && x.out == [] && y.out == []
    ensures y.received == x.calls <==> x.queue == None || x.queue == Some([])
    ensures x.queue.Some? <==> Acks(QueueOf(y)) == 1
    ensures x.queue == None ==> Acks(QueueOf(y)) == 0
  {
    assert y.received + [] == y.received && x.received + [] == x.received;
    CountAppend(x.written, QueueOf(x));
    CountAppend(y.written, QueueOf(y));
    if y.received == x.calls {
      assert |x.written| == |x.written + QueueOf(x)|;
    } else {
      assert x.written + [] == x.written;
    }
  }

  /** When there is nothing left to read both ends wait or none does, and they wait if and only
      if not everything was delivered. */
  lemma QuietIff(p: Pair)
    requires PairOk(p.a, p.b) && Quiet(p)
    ensures p.a.queue.Some? <==> p.b.queue.Some?
    ensures Stuck(p) <==> !AllDelivered(p)
  {
    QuietEnd(p.a, p.b);
    QuietEnd(p.b, p.a);
  }

  // ---------------------------------------------------------------- every read is progress

  /** A handle costs more, since it will be answered. */
  function Cost(s: seq<Message>): nat {
    if s == [] then 0 else (if s[0].WithHandle? then 6 else 2) + Cost(s[1..])
  }

  lemma {:induction false} CostAppend(s: seq<Message>, t: seq<Message>)
    ensures Cost(s + t) == Cost(s) + Cost(t)
  {
    if s == [] {
      assert s + t == t;
    } else {
      assert (s + t)[1..] == s[1..] + t;
      CostAppend(s[1..], t);
    }
  }

  function EndWork(e: End): nat {
    Cost(e.out) + Cost(QueueOf(e)) + |QueueOf(e)|
  }

  function Work(p: Pair): nat {
    EndWork(p.a) + EndWork(p.b)
  }

  lemma DispatchWork(e: End, m: Message)
    ensures EndWork(Dispatch(e, m)) <= EndWork(e) + Cost([m]) + 1
  {
    CostAppend(e.out, [m]);
    CostAppend(QueueOf(e), [m]);
  }

  lemma {:induction false} ReplayWork(e: End, q: seq<Message>)
    ensures EndWork(Replay(e, q)) <= EndWork(e) + Cost(q) + |q|
    decreases |q|
  {
    if q != [] {
      DispatchWork(e, q[0]);
      ReplayWork(Dispatch(e, q[0]), q[1..]);
      CostAppend([q[0]], q[1..]);
      assert [q[0]] + q[1..] == q;
    }
  }

  lemma ReceiveWork(e: End, m: Message)
    requires m == Ack ==> e.queue.Some?
    ensures Receive(e, m).Some? && EndWork(Receive(e, m).value) < EndWork(e) + Cost([m])
  {
    var e1 := e.(received := e.received + [m]);
    match m
    case Plain(_) =>
    case WithHandle(_) =>
      DispatchWork(e1.(calls := e1.calls + [Ack]), Ack);
      assert [Ack][1..] == [] && [m][1..] == [];
      assert Cost([Ack]) == 2 && Cost([m]) == 6;
    case Ack => ReplayWork(e1.(queue := None), e.queue.value);
  }

  lemma ReadWork(x: End, y: End)
    requires PairOk(x, y) && x.out != []
    ensures Read(x, y).Some?
    ensures var (x', y') := Read(x, y).value; EndWork(x') + EndWork(y') < EndWork(x) + EndWork(y)
  {
    if x.out[0] == Ack {
      AckFindsQueue(x, y);
    }
    ReceiveWork(y, x.out[0]);
    CostAppend([x.out[0]], x.out[1..]);
    assert [x.out[0]] + x.out[1..] == x.out;
  }

  /** Whoever reads next: it can be read, and less is left to do. */
  lemma ReadProgress(p: Pair, e: Event)
    requires PairOk(p.a, p.b) && Enabled(p, e) && (e.ReadA? || e.ReadB?)
    ensures Step(p, e).Some? && Work(Step(p, e).value) < Work(p)
    ensures PairOk(Step(p, e).value.a, Step(p, e).value.b)
  {
    StepKeeps(p, e);
    if e.ReadA? {
      ReadWork(p.b, p.a);
    } else {
      ReadWork(p.a, p.b);
    }
  }

  /** All messages read, one after the other, at an end that `first` picks if both have some. */
  function Drained(p: Pair, first: nat -> bool): Pair
    requires PairOk(p.a, p.b)
    decreases Work(p)
  {
    if Quiet(p) then p
    else
      var e := NextRead(p, first);
      ReadProgress(p, e);
      Drained(Step(p, e).value, first)
  }

  function NextRead(p: Pair, first: nat -> bool): Event {
    if p.b.out == [] || (p.a.out != [] && first(Work(p))) then ReadB else ReadA
  }

  /** In whatever order the two ends read: they come to an end, and then either everything was
      delivered or they are stuck. */
  lemma {:induction false} DrainedIff(p: Pair, first: nat -> bool)
    requires PairOk(p.a, p.b)
    ensures var r := Drained(p, first);
      Quiet(r) && PairOk(r.a, r.b) && (Stuck(r) <==> !AllDelivered(r))
    decreases Work(p)
  {
    if Quiet(p) {
      QuietIff(p);
    } else {
      var e := NextRead(p, first);
      ReadProgress(p, e);
      DrainedIff(Step(p, e).value, first);
    }
  }

  // ---------------------------------------------------------------- who gets stuck

  /** Both ends wait, and no acknowledgement is on its way to either. */
  predicate Crossed(p: Pair) {
    p.a.queue.Some? && p.b.queue.Some? && Acks(p.a.out) == 0 && Acks(p.b.out) == 0
  }

  /** The queue has a handle, and no acknowledgement in front of it. */
  predicate HandleFirst(q: seq<Message>) {
    q != [] && (q[0].WithHandle? || (q[0] != Ack && HandleFirst(q[1..])))
  }

  /** An end that sends a handle, or comes to one in the queue it replays, while the other end
      waits and no acknowledgement to that is on the way. */
  predicate Crosses(p: Pair, e: Event)
    requires Enabled(p, e)
  {
    match e
    case SendA(m) => m.WithHandle? && p.a.queue == None && p.b.queue.Some? && Acks(p.a.out) == 0
    case SendB(m) => m.WithHandle? && p.b.queue == None && p.a.queue.Some? && Acks(p.b.out) == 0
    case ReadA => p.b.out[0] == Ack && HandleFirst(QueueOf(p.a)) && p.b.queue.Some? && Acks(p.a.out) == 0
    case ReadB => p.a.out[0] == Ack && HandleFirst(QueueOf(p.b)) && p.a.queue.Some? && Acks(p.b.out) == 0
  }

  /** At most one acknowledgement is on its way to an end, and none if that does not wait. */
  lemma AcksOnTheWay(x: End, y: End)
    requires PairOk(x, y)
    ensures Acks(y.out) <= (if x.queue.Some? then 1 else 0)
  {
    CountAppend(x.received, y.out);
    CountAppend(y.written, QueueOf(y));
    CountAppend(y.received, x.out);
  }

  lemma {:induction false} ReplayQueued(e: End, q: seq<Message>)
    requires e.queue.Some?
    ensures Replay(e, q).queue.Some? && Replay(e, q).out == e.out
    decreases |q|
  {
    if q != [] {
      ReplayQueued(Dispatch(e, q[0]), q[1..]);
    }
  }

  /** After a replay the end waits again, and wrote no acknowledgement, exactly if a handle comes
      first in the queue. */
  lemma {:induction false} ReplayCrosses(e: End, q: seq<Message>)
    requires e.queue == None
    ensures Acks(Replay(e, q).out) >= Acks(e.out)
    ensures Replay(e, q).queue.Some? && Acks(Replay(e, q).out) == Acks(e.out) <==> HandleFirst(q)
    decreases |q|
  {
    if q != [] {
      CountSnoc(e.out, q[0]);
      if q[0].WithHandle? {
        ReplayQueued(Dispatch(e, q[0]), q[1..]);
      } else {
        ReplayCrosses(Dispatch(e, q[0]), q[1..]);
      }
    }
  }

  lemma SendCrosses(x: End, y: End, m: Message)
    requires PairOk(x, y) && m != Ack
    ensures var x' := Send(x, m);
      x'.queue.Some? && y.queue.Some? && Acks(x'.out) == 0 && Acks(y.out) == 0 <==>
      (x.queue.Some? && y.queue.Some? && Acks(x.out) == 0 && Acks(y.out) == 0)
      || (m.WithHandle? && x.queue == None && y.queue.Some? && Acks(x.out) == 0)
  {
    CountSnoc(x.out, m);
    AcksOnTheWay(x, y);
  }

  lemma ReadCrosses(x: End, y: End)
    requires PairOk(x, y) && x.out != []
    ensures Read(x, y).Some?
    ensures var (x', y') := Read(x, y).value;
      x'.queue.Some? && y'.queue.Some? && Acks(x'.out) == 0 && Acks(y'.out) == 0 <==>
      (x.queue.Some? && y.queue.Some? && Acks(x.out) == 0 && Acks(y.out) == 0)
      || (x.out[0] == Ack && HandleFirst(QueueOf(y)) && x.queue.Some? && Acks(y.out) == 0)
  {
    var m := x.out[0];
    ReadKeeps(x, y);
    AcksOnTheWay(y, x);
    if m == Ack {
      AckFindsQueue(x, y);
      ReplayCrosses(y.(received := y.received + [m], queue := None), y.queue.value);
    } else {
      CountSnoc(y.out, Ack);
    }
  }

  /** Which steps lead to a crossing, and that nothing leads out of it. */
  lemma CrossedIff(p: Pair, e: Event)
    requires PairOk(p.a, p.b) && Enabled(p, e)
    ensures Step(p, e).Some? && (Crossed(Step(p, e).value) <==> Crossed(p) || Crosses(p, e))
  {
    match e
    case SendA(m) => SendCrosses(p.a, p.b, m);
    case SendB(m) => SendCrosses(p.b, p.a, m);
    case ReadA => ReadCrosses(p.b, p.a);
    case ReadB => ReadCrosses(p.a, p.b);
  }

  /** From a crossing on, reading always ends in being stuck. */
  lemma {:induction false} CrossedDrains(p: Pair, first: nat -> bool)
    requires PairOk(p.a, p.b) && Crossed(p)
    ensures Stuck(Drained(p, first))
    decreases Work(p)
  {
    if !Quiet(p) {
      var e := NextRead(p, first);
      ReadProgress(p, e);
      CrossedIff(p, e);
      CrossedDrains(Step(p, e).value, first);
    }
  }

  /** When both ends send a handle at the same time, each acknowledgement queues up behind
      the other handle: nothing is ever read again, and everything sent from then on waits. */
  lemma BothSendHandles()
    ensures var es := [SendA(WithHandle(1)), SendB(WithHandle(2)), ReadA, ReadB];
      After(es).Some? && Stuck(After(es).value)
  {
    var e1 := [SendA(WithHandle(1))];
    var e2 := e1 + [SendB(WithHandle(2))];
    var e3 := e2 + [ReadA];
    var e4 := e3 + [ReadB];
    assert e1[..0] == [] && e2[..1] == e1 && e3[..2] == e2 && e4[..3] == e3;
    var a1, b1 := Send(IDLE, WithHandle(1)), Send(IDLE, WithHandle(2));
    assert After(e1) == Some(Pair(a1, IDLE));
    assert After(e2) == Some(Pair(a1, b1));
    var a2, b2 := Receive(a1, WithHandle(2)).value, Receive(b1, WithHandle(1)).value;
    assert b1.out[1..] == [] && a1.out[1..] == [];
    assert a2.queue.Some? && a2.out == a1.out;
    assert After(e3) == Some(Pair(a2, b1.(out := [])));
    assert e4 == [SendA(WithHandle(1)), SendB(WithHandle(2)), ReadA, ReadB];
  }

  lemma StuckForever(p: Pair, e: Event)
    requires Stuck(p) && Enabled(p, e)
    ensures Step(p, e).Some? && Stuck(Step(p, e).value)
  {}

  // ---------------------------------------------------------------- handles one way only

  /** While only `a` sends handles, `b` never waits. */
  predicate OneWay(p: Pair) {
    PairOk(p.a, p.b) && p.b.queue.None? && Handles(p.b.written) == 0
  }

  /** An end without a queue that reads a message writes at most an acknowledgement. */
  lemma ReadWithoutQueue(e: End, m: Message)
    requires e.queue.None? && m != Ack
    ensures Receive(e, m).Some?
    ensures var r := Receive(e, m).value; r.queue.None? && Handles(r.written) == Handles(e.written)
  {
    CountSnoc(e.written, Ack);
  }

  lemma OneWayRead(p: Pair, e: Event)
    requires OneWay(p) && Enabled(p, e) && (e.ReadA? || e.ReadB?)
    ensures Step(p, e).Some? && OneWay(Step(p, e).value) && Step(p, e).value.a.calls == p.a.calls
  {
    StepKeeps(p, e);
    if e.ReadB? {
      if p.a.out[0] == Ack {
        AckFindsQueue(p.a, p.b);
      }
      ReadWithoutQueue(p.b, p.a.out[0]);
    } else {
      NoHandleRead(p);
      if p.b.out[0] == Ack {
        AckFindsQueue(p.b, p.a);
        ReplayFacts(p.a.(received := p.a.received + [Ack], queue := None), p.a.queue.value);
      }
    }
  }

  lemma NoHandleRead(p: Pair)
    requires OneWay(p) && p.b.out != []
    ensures !p.b.out[0].WithHandle?
  {
    CountAppend(p.a.received, p.b.out);
  }

  /** If only one end has sent handles, reading delivers everything it was asked to send, in
      order, and leaves nothing waiting. */
  lemma {:induction false} OneWayDrains(p: Pair, first: nat -> bool)
    requires OneWay(p)
    ensures var r := Drained(p, first);
      Quiet(r) && r.a.queue.None? && AllDelivered(r) && r.a.calls == p.a.calls
    decreases Work(p)
  {
    if Quiet(p) {
      QuietIff(p);
    } else {
      var e := NextRead(p, first);
      ReadProgress(p, e);
      OneWayRead(p, e);
      OneWayDrains(Step(p, e).value, first);
    }
  }
}
