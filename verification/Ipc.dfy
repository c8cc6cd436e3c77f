/**
 The message channel between a parent and a child process, `setupChannel` of
 lib/child_process.js: messages that carry a handle wait for an acknowledgement, and
 everything sent meanwhile waits behind them.
 */
module Ipc {
  import opened Prelude

  /** A message by its number: without a handle, with one, or the acknowledgement of one. */
  datatype Message = Plain(id: nat) | WithHandle(id: nat) | Ack

  /**
   One end of the channel. `queue` is `_handleQueue`, `out` what the other end has not read.
   The rest is history: all that was written, all calls of `send`, all that was read.
   */
  datatype End = End(queue: Option<seq<Message>>, out: seq<Message>, written: seq<Message>, calls: seq<Message>,
                     received: seq<Message>)

  const IDLE := End(None, [], [], [], [])

  /** The part of `send` after a call has been noted; replaying the queue calls it as well. */
  function Dispatch(e: End, m: Message): End {
    match e.queue
    case Some(q) => e.(queue := Some(q + [m]))
    case None =>
      e.(out := e.out + [m], written := e.written + [m], queue := if m.WithHandle? then Some([]) else None)
  }

  function Send(e: End, m: Message): End {
    Dispatch(e.(calls := e.calls + [m]), m)
  }

  function Replay(e: End, q: seq<Message>): End
    decreases |q|
  {
    if q == [] then e else Replay(Dispatch(e, q[0]), q[1..])
  }

  /** The internal message handler. `None`: the assertion that a queue exists fails. */
  function Receive(e: End, m: Message): Option<End> {
    var e1 := e.(received := e.received + [m]);
    match m
    case Plain(_) => Some(e1)
    case WithHandle(_) => Some(Send(e1, Ack))
    case Ack =>
      match e.queue
      case None => None
      case Some(q) => Some(Replay(e1.(queue := None), q))
  }

  /** The source's object at one end. */
  class Target {
    var handleQueue: Option<seq<Message>>
    var out: seq<Message>
    var written: seq<Message>
    var calls: seq<Message>
    var received: seq<Message>

    ghost function Abs(): End
      reads this
    {
      End(handleQueue, out, written, calls, received)
    }

    constructor ()
      ensures Abs() == IDLE
    {
      handleQueue, out, written, calls, received := None, [], [], [], [];
    }

    method SendMessage(m: Message)
      modifies this
      ensures Abs() == Send(old(Abs()), m)
    {
      calls := calls + [m];
      Put(m);
    }

    method Put(m: Message)
      modifies this
      ensures Abs() == Dispatch(old(Abs()), m)
    {
      match handleQueue
      case Some(q) =>
        handleQueue := Some(q + [m]);
      case None =>
        out := out + [m];
        written := written + [m];
        if m.WithHandle? {
          handleQueue := Some([]);
        }
    }

    /** What the handler does on an acknowledgement. */
    method OnAck()
      requires handleQueue.Some?
      modifies this
      ensures Abs() == Replay(old(Abs()).(queue := None), old(handleQueue).value)
    {
      var queue := handleQueue.value;
      handleQueue := None;
      ghost var whole := Replay(Abs(), queue);
      var i := 0;
      while i < |queue|
        invariant 0 <= i <= |queue|
        invariant Replay(Abs(), queue[i..]) == whole
      {
        assert queue[i..][1..] == queue[i + 1..];
        Put(queue[i]);
        i := i + 1;
      }
    }

    method OnMessage(m: Message)
      requires m == Ack ==> handleQueue.Some?
      modifies this
      ensures Some(Abs()) == Receive(old(Abs()), m)
    {
      received := received + [m];
      if m == Ack {
        OnAck();
      } else if m.WithHandle? {
        SendMessage(Ack);
      }
    }
  }

  // ---------------------------------------------------------------- one end

  function QueueOf(e: End): seq<Message> {
    if e.queue.Some? then e.queue.value else []
  }

  function Acks(s: seq<Message>): nat {
    if s == [] then 0 else (if s[0] == Ack then 1 else 0) + Acks(s[1..])
  }

  function Handles(s: seq<Message>): nat {
    if s == [] then 0 else (if s[0].WithHandle? then 1 else 0) + Handles(s[1..])
  }

  lemma {:induction false} CountAppend(s: seq<Message>, t: seq<Message>)
    ensures Acks(s + t) == Acks(s) + Acks(t) && Handles(s + t) == Handles(s) + Handles(t)
  {
    if s == [] {
      assert s + t == t;
    } else {
      assert (s + t)[1..] == s[1..] + t;
      CountAppend(s[1..], t);
    }
  }

  lemma CountSnoc(s: seq<Message>, m: Message)
    ensures Acks(s + [m]) == Acks(s) + (if m == Ack then 1 else 0)
    ensures Handles(s + [m]) == Handles(s) + (if m.WithHandle? then 1 else 0)
  {
    CountAppend(s, [m]);
    assert [m][1..] == [];
  }

  /** Handles written but not acknowledged. */
  function Unacknowledged(e: End): int {
    Handles(e.written) - Acks(e.received)
  }

  /** What one end keeps: calls are written in order, the queue exists exactly while one
      handle is unacknowledged, and each handle read is answered by one call. */
  predicate EndOk(e: End) {
    && e.written + QueueOf(e) == e.calls
    && Unacknowledged(e) == (if e.queue.Some? then 1 else 0)
    && Acks(e.calls) == Handles(e.received)
  }

  /** `r` has written some more than `e`. */
  predicate Extends(e: End, r: End) {
    e.out <= r.out && r.written == e.written + r.out[|e.out|..] && r.received == e.received && r.calls == e.calls
  }

  lemma DispatchFacts(e: End, m: Message)
    ensures var r := Dispatch(e, m);
      && Extends(e, r)
      && r.written + QueueOf(r) == e.written + QueueOf(e) + [m]
      && Unacknowledged(r) - (if r.queue.Some? then 1 else 0) == Unacknowledged(e) - (if e.queue.Some? then 1 else 0)
  {
    match e.queue
    case Some(q) => assert e.written + (q + [m]) == e.written + q + [m];
    case None => CountSnoc(e.written, m);
  }

  lemma ExtendsTrans(e: End, f: End, g: End)
    requires Extends(e, f) && Extends(f, g)
    ensures Extends(e, g)
  {
    assert g.out[|e.out|..] == f.out[|e.out|..] + g.out[|f.out|..];
  }

  lemma {:induction false} ReplayFacts(e: End, q: seq<Message>)
    ensures var r := Replay(e, q);
      && Extends(e, r)
      && r.written + QueueOf(r) == e.written + QueueOf(e) + q
      && Unacknowledged(r) - (if r.queue.Some? then 1 else 0) == Unacknowledged(e) - (if e.queue.Some? then 1 else 0)
    decreases |q|
  {
    if q == [] {
      assert e.written + QueueOf(e) + q == e.written + QueueOf(e);
    } else {
      var f := Dispatch(e, q[0]);
      DispatchFacts(e, q[0]);
      ReplayFacts(f, q[1..]);
      ExtendsTrans(e, f, Replay(e, q));
      assert e.written + QueueOf(e) + [q[0]] + q[1..] == e.written + QueueOf(e) + q;
    }
  }

  lemma SendKeeps(e: End, m: Message)
    requires e.written + QueueOf(e) == e.calls
    requires Unacknowledged(e) == (if e.queue.Some? then 1 else 0)
    requires Acks(e.calls) + (if m == Ack then 1 else 0) == Handles(e.received)
    ensures EndOk(Send(e, m))
    ensures Extends(e.(calls := e.calls + [m]), Send(e, m))
  {
    CountSnoc(e.calls, m);
    DispatchFacts(e.(calls := e.calls + [m]), m);
  }

  lemma ReceiveKeeps(e: End, m: Message)
    requires EndOk(e) && (m == Ack ==> e.queue.Some?)
    ensures Receive(e, m).Some?
    ensures var r := Receive(e, m).value;
      && EndOk(r) && r.received == e.received + [m]
      && e.out <= r.out && r.written == e.written + r.out[|e.out|..]
  {
    var e1 := e.(received := e.received + [m]);
    CountSnoc(e.received, m);
    match m
    case Plain(_) =>
    case WithHandle(_) => SendKeeps(e1, Ack);
    case Ack => ReplayFacts(e1.(queue := None), e.queue.value);
  }

  // ---------------------------------------------------------------- both ends

  datatype Pair = Pair(a: End, b: End)

  /** Nothing is lost or reordered on the wire. */
  predicate Pipe(x: End, y: End) {
    x.written == y.received + x.out
  }

  predicate PairOk(x: End, y: End) {
    EndOk(x) && EndOk(y) && Pipe(x, y) && Pipe(y, x)
  }

  /** `y` reads the next message from `x`. */
  function Read(x: End, y: End): Option<(End, End)>
    requires x.out != []
  {
    match Receive(y, x.out[0])
    case None => None
    case Some(y') => Some((x.(out := x.out[1..]), y'))
  }

  /** An acknowledgement on the wire means that the other end has its queue. */
  lemma AckFindsQueue(x: End, y: End)
    requires PairOk(x, y) && x.out != [] && x.out[0] == Ack
    ensures y.queue.Some?
  {
    CountAppend(y.received, x.out);
    CountAppend(x.written, QueueOf(x));
    CountAppend(x.received, y.out);
  }

  lemma ReadKeeps(x: End, y: End)
    requires PairOk(x, y) && x.out != []
    ensures Read(x, y).Some?
    ensures var (x', y') := Read(x, y).value; PairOk(x', y')
  {
    if x.out[0] == Ack {
      AckFindsQueue(x, y);
    }
    ReceiveKeeps(y, x.out[0]);
    var y' := Receive(y, x.out[0]).value;
    assert x.out == [x.out[0]] + x.out[1..];
    Assoc(y.received, [x.out[0]], x.out[1..]);
    var more := y'.out[|y.out|..];
    assert y'.out == y.out + more;
    Assoc(x.received, y.out, more);
  }

  datatype Event =
    | SendA(m: Message)
    | SendB(m: Message)
    | ReadA
    | ReadB

  predicate Enabled(p: Pair, e: Event) {
    match e
    case SendA(m) => m != Ack
    case SendB(m) => m != Ack
    case ReadA => p.b.out != []
    case ReadB => p.a.out != []
  }

  /** `None`: an assertion of the source fails. */
  function Step(p: Pair, e: Event): Option<Pair>
    requires Enabled(p, e)
  {
    match e
    case SendA(m) => Some(p.(a := Send(p.a, m)))
    case SendB(m) => Some(p.(b := Send(p.b, m)))
    case ReadA => (match Read(p.b, p.a) case None => None case Some((b, a)) => Some(Pair(a, b)))
    case ReadB => (match Read(p.a, p.b) case None => None case Some((a, b)) => Some(Pair(a, b)))
  }

  lemma StepKeeps(p: Pair, e: Event)
    requires PairOk(p.a, p.b) && Enabled(p, e)
    ensures Step(p, e).Some? && PairOk(Step(p, e).value.a, Step(p, e).value.b)
  {
    match e
    case SendA(m) => SendKeeps(p.a, m); PipeAfterSend(p.a, p.b, m);
    case SendB(m) => SendKeeps(p.b, m); PipeAfterSend(p.b, p.a, m);
    case ReadA => ReadKeeps(p.b, p.a);
    case ReadB => ReadKeeps(p.a, p.b);
  }

  lemma PipeAfterSend(x: End, y: End, m: Message)
    requires Pipe(x, y)
    ensures Pipe(Send(x, m), y) && Send(x, m).received == x.received
  {
    DispatchFacts(x.(calls := x.calls + [m]), m);
    var r := Send(x, m);
    assert r.out == x.out + r.out[|x.out|..];
  }

  /** The state after the events; `None` if one was not possible or an assertion failed. */
  function After(es: seq<Event>): Option<Pair> {
    if es == [] then Some(Pair(IDLE, IDLE))
    else
      match After(es[..|es| - 1])
      case None => None
      case Some(p) => if Enabled(p, es[|es| - 1]) then Step(p, es[|es| - 1]) else None
  }

  lemma {:induction false} RunOk(es: seq<Event>)
    ensures After(es).Some? ==> PairOk(After(es).value.a, After(es).value.b)
  {
    if es != [] {
      RunOk(es[..|es| - 1]);
      match After(es[..|es| - 1])
      case None =>
      case Some(p) =>
        if Enabled(p, es[|es| - 1]) {
          StepKeeps(p, es[|es| - 1]);
        }
    }
  }

  /** On every run, for each end: what is written followed by what waits are the calls of
      `send` in order, the other end reads exactly what is written, and at most one handle
      is unacknowledged. No possible step fails an assertion. */
  lemma SendOrder(es: seq<Event>)
    requires After(es).Some?
    ensures var p := After(es).value;
      && p.a.written + QueueOf(p.a) == p.a.calls && p.b.received + p.a.out == p.a.written
      && p.b.written + QueueOf(p.b) == p.b.calls && p.a.received + p.b.out == p.b.written
      && 0 <= Handles(p.a.written) - Acks(p.a.received) <= 1
      && 0 <= Handles(p.b.written) - Acks(p.b.received) <= 1
    ensures forall e :: Enabled(After(es).value, e) ==> Step(After(es).value, e).Some?
  {
    RunOk(es);
    var p := After(es).value;
    forall e | Enabled(p, e)
      ensures Step(p, e).Some?
    {
      StepKeeps(p, e);
    }
  }
}
