/**
 Round-robin scheduling of connections over cluster workers (lib/cluster.js).

 `Master` specifies one `RoundRobinHandle` and the messages it sends; the class is the
 source's object. `System` adds the workers and the channels, first in first out each way.
 Workers and connections are represented by their numbers.
 */
module Cluster {
  type Worker = nat
  type Conn = nat

  datatype Down = Listening | NewConn(seqno: nat, conn: Conn)
  datatype Up = Query | Close | Ack(ack: nat, accepted: bool)

  datatype Pending = Pending(worker: Worker, conn: Conn)

  /** `sendHelper`'s counter and callbacks, the channels to the workers, and closed connections.
      `offered` has an entry for every connection that was offered to a worker, in order. */
  datatype Wire = Wire(
    nextSeq: nat,
    callbacks: map<nat, Pending>,
    down: map<Worker, seq<Down>>,
    closed: set<Conn>,
    offered: seq<Pending>)

  /** What happened to the ready queue: a worker joined it, was called to take a connection, or was removed. */
  datatype Turn = Readied(worker: Worker) | Called(worker: Worker) | Gone(worker: Worker)

  /** `live`: the listening handle has not been closed. `joined` has the connections in the order in which
      they joined the line, those that were turned down again, and `turns` the history of the ready queue. */
  datatype Master = Master(
    live: bool,
    all: set<Worker>,
    free: seq<Worker>,
    handles: seq<Conn>,
    wire: Wire,
    joined: seq<Conn>,
    turns: seq<Turn>)

  function Queue<T>(m: map<Worker, seq<T>>, w: Worker): seq<T> {
    if w in m then m[w] else []
  }

  function Post(wire: Wire, w: Worker, msg: Down): Wire {
    wire.(down := wire.down[w := Queue(wire.down, w) + [msg]])
  }

  /** `sendHelper` with a callback. */
  function SendConn(wire: Wire, w: Worker, c: Conn): Wire {
    Post(wire.(nextSeq := wire.nextSeq + 1, callbacks := wire.callbacks[wire.nextSeq := Pending(w, c)],
               offered := wire.offered + [Pending(w, c)]), w, NewConn(wire.nextSeq, c))
  }

  function Handoff(m: Master, w: Worker): Master {
    if w !in m.all then m
    else if m.handles == [] then m.(free := m.free + [w], turns := m.turns + [Readied(w)])
    else m.(handles := m.handles[1..], wire := SendConn(m.wire, w, m.handles[0]))
  }

  function Distribute(m: Master, c: Conn): Master {
    var m1 := m.(handles := m.handles + [c], joined := m.joined + [c]);
    if m.free == [] then m1
    else Handoff(m1.(free := m.free[1..], turns := m.turns + [Called(m.free[0])]), m.free[0])
  }

  function Add(m: Master, w: Worker): Master {
    Handoff(m.(all := m.all + {w}, wire := Post(m.wire, w, Listening)), w)
  }

  function Without(s: seq<Worker>, w: Worker): seq<Worker> {
    if s == [] then [] else if s[0] == w then s[1..] else [s[0]] + Without(s[1..], w)
  }

  lemma {:induction false} WithoutAt(s: seq<Worker>, w: Worker, i: nat)
    requires i <= |s| && w !in s[..i] && (i < |s| ==> s[i] == w)
    ensures Without(s, w) == if i < |s| then s[..i] + s[i + 1..] else s
  {
    if i > 0 {
      assert s[0] in s[..i];
      forall k | 0 <= k < i - 1
        ensures s[1..][k] != w
      {
        assert s[1..][k] == s[..i][k + 1];
      }
      WithoutAt(s[1..], w, i - 1);
    }
  }

  function Remove(m: Master, w: Worker): Master {
    if w !in m.all then m
    else
      var m1 := m.(all := m.all - {w}, free := Without(m.free, w), turns := m.turns + [Gone(w)]);
      if m1.all != {} then m1
      else m1.(live := false, handles := [], wire := m.wire.(closed := m.wire.closed + set c | c in m.handles))
  }

  /** The callback of `handoff`, after `internal` has taken it out of `callbacks`. */
  function OnReply(m: Master, ack: nat, accepted: bool): Master
    requires ack in m.wire.callbacks
  {
    var p := m.wire.callbacks[ack];
    var m1 := m.(wire := m.wire.(callbacks := m.wire.callbacks - {ack}));
    Handoff(if accepted then m1 else Distribute(m1, p.conn), p.worker)
  }

  /** The source's object; `wire` stands for the channel functions it calls. */
  class RoundRobinHandle {
    var live: bool
    var all: set<Worker>
    var free: seq<Worker>
    var handles: seq<Conn>
    var wire: Wire
    ghost var joined: seq<Conn>
    ghost var turns: seq<Turn>

    ghost function Abs(): Master
      reads this
    {
      Master(live, all, free, handles, wire, joined, turns)
    }

    constructor (initial: Wire)
      ensures Abs() == Master(true, {}, [], [], initial, [], [])
    {
      live, all, free, handles, wire := true, {}, [], [], initial;
      joined, turns := [], [];
    }

    method HandOff(worker: Worker)
      modifies this
      ensures Abs() == Handoff(old(Abs()), worker)
    {
      if worker !in all {
        return;
      }
      if handles == [] {
        free := free + [worker];
        turns := turns + [Readied(worker)];
        return;
      }
      var handle := handles[0];
      handles := handles[1..];
      wire := SendConn(wire, worker, handle);
    }

    method DistributeConn(handle: Conn)
      modifies this
      ensures Abs() == Distribute(old(Abs()), handle)
    {
      handles := handles + [handle];
      joined := joined + [handle];
      if free != [] {
        var worker := free[0];
        free := free[1..];
        turns := turns + [Called(worker)];
        HandOff(worker);
      }
    }

    method AddWorker(worker: Worker)
      requires worker !in all
      modifies this
      ensures Abs() == Add(old(Abs()), worker)
    {
      all := all + {worker};
      wire := Post(wire, worker, Listening);
      HandOff(worker);
    }

    method RemoveWorker(worker: Worker) returns (last: bool)
      modifies this
      ensures Abs() == Remove(old(Abs()), worker)
      ensures last == (worker in old(all) && all == {})
    {
      if worker !in all {
        return false;
      }
      all := all - {worker};
      RemoveFree(worker);
      turns := turns + [Gone(worker)];
      if all != {} {
        return false;
      }
      CloseAll();
      live := false;
      return true;
    }

    /** `indexOf` and `splice` on the ready queue. */
    method RemoveFree(worker: Worker)
      modifies this`free
      ensures free == Without(old(free), worker)
    {
      var i := 0;
      while i < |free| && free[i] != worker
        invariant 0 <= i <= |free|
        invariant worker !in free[..i]
      {
        i := i + 1;
      }
      WithoutAt(free, worker, i);
      if i < |free| {
        free := free[..i] + free[i + 1..];
      }
    }

    /** Closes every waiting connection, taking them off the list one by one. */
    method CloseAll()
      modifies this`handles, this`wire
      ensures handles == []
      ensures wire == old(wire).(closed := old(wire).closed + set c | c in old(handles))
    {
      ghost var done := [];
      while handles != []
        invariant done + handles == old(handles)
        invariant wire == old(wire).(closed := old(wire).closed + set c | c in done)
        decreases |handles|
      {
        var handle := handles[0];
        handles := handles[1..];
        wire := wire.(closed := wire.closed + {handle});
        done := done + [handle];
      }
      assert done == old(handles);
    }

    method Reply(ack: nat, accepted: bool)
      requires ack in wire.callbacks
      modifies this
      ensures Abs() == OnReply(old(Abs()), ack, accepted)
    {
      var p := wire.callbacks[ack];
      wire := wire.(callbacks := wire.callbacks - {ack});
      if !accepted {
        DistributeConn(p.conn);
      }
      HandOff(p.worker);
    }
  }

  // ---------------------------------------------------------------- what the master keeps

  predicate NoDuplicates<T(==)>(s: seq<T>) {
    forall i, j :: 0 <= i < j < |s| ==> s[i] != s[j]
  }

  predicate Awaits(wire: Wire, w: Worker) {
    exists s :: s in wire.callbacks && wire.callbacks[s].worker == w
  }

  predicate InFlight(wire: Wire, c: Conn) {
    exists s :: s in wire.callbacks && wire.callbacks[s].conn == c
  }

  /** Each registered worker is exactly one of free or awaiting one reply, except those of
      `moving`, which are neither; and waiting connections mean that no worker is free. */
  ghost predicate Scheduled(m: Master, moving: set<Worker>) {
    && NoDuplicates(m.free) && (forall w :: w in m.free ==> w in m.all)
    && (m.handles != [] ==> m.free == [])
    && (forall w :: w in m.all ==> (w in m.free || Awaits(m.wire, w) <==> w !in moving))
    && (forall w :: w in m.free ==> !Awaits(m.wire, w))
  }

  /** Callbacks are numbered, and a worker or a connection has at most one. */
  ghost predicate Numbered(wire: Wire) {
    && (forall s :: s in wire.callbacks ==> s < wire.nextSeq)
    && (forall s, t :: s in wire.callbacks && t in wire.callbacks && s != t ==>
          wire.callbacks[s].worker != wire.callbacks[t].worker && wire.callbacks[s].conn != wire.callbacks[t].conn)
  }

  /** A connection is in at most one place. */
  ghost predicate Placed(m: Master) {
    && NoDuplicates(m.handles)
    && (forall c :: c in m.handles ==> !InFlight(m.wire, c) && c !in m.wire.closed)
    && (forall c :: InFlight(m.wire, c) ==> c !in m.wire.closed)
  }

  ghost predicate MasterOk(m: Master, moving: set<Worker>) {
    Scheduled(m, moving) && Numbered(m.wire) && Placed(m)
  }

  lemma SendAwaits(wire: Wire, w: Worker, c: Conn)
    requires Numbered(wire)
    ensures var wire' := SendConn(wire, w, c);
      && (forall x :: Awaits(wire', x) <==> Awaits(wire, x) || x == w)
      && (forall x :: InFlight(wire', x) <==> InFlight(wire, x) || x == c)
  {
    var wire' := SendConn(wire, w, c);
    forall x
      ensures Awaits(wire', x) <==> Awaits(wire, x) || x == w
      ensures InFlight(wire', x) <==> InFlight(wire, x) || x == c
    {
      assert wire'.callbacks[wire.nextSeq] == Pending(w, c);
      if Awaits(wire, x) {
        var s :| s in wire.callbacks && wire.callbacks[s].worker == x;
        assert wire'.callbacks[s].worker == x;
      }
      if InFlight(wire, x) {
        var s :| s in wire.callbacks && wire.callbacks[s].conn == x;
        assert wire'.callbacks[s].conn == x;
      }
    }
  }

  lemma SendNumbered(wire: Wire, w: Worker, c: Conn)
    requires Numbered(wire) && !Awaits(wire, w) && !InFlight(wire, c)
    ensures Numbered(SendConn(wire, w, c))
  {}

  /** Handing the next connection to a worker that has nothing to do. */
  lemma HandoffKeeps(m: Master, w: Worker, moving: set<Worker>)
    requires MasterOk(m, moving + {w}) && w !in moving
    ensures MasterOk(Handoff(m, w), moving)
  {
    if w in m.all && m.handles != [] {
      SendAwaits(m.wire, w, m.handles[0]);
      SendNumbered(m.wire, w, m.handles[0]);
    }
  }

  /** A connection that is nowhere yet is handed to the first free worker, or waits. */
  lemma DistributeKeeps(m: Master, c: Conn, moving: set<Worker>)
    requires MasterOk(m, moving) && c !in m.handles && !InFlight(m.wire, c) && c !in m.wire.closed
    ensures MasterOk(Distribute(m, c), moving)
  {
    if m.free != [] {
      var w := m.free[0];
      var m1 := m.(handles := m.handles + [c], free := m.free[1..], joined := m.joined + [c],
                   turns := m.turns + [Called(w)]);
      assert m1.handles == [c];
      assert forall x :: x in m1.free ==> x in m.free;
      assert forall i :: 0 <= i < |m1.free| ==> m1.free[i] == m.free[i + 1];
      assert w !in m1.free;
      assert forall x :: x in m.free <==> x in m1.free || x == w;
      SendAwaits(m.wire, w, c);
      SendNumbered(m.wire, w, c);
      assert m1.handles[1..] == [];
    }
  }

  lemma PostKeeps(wire: Wire, w: Worker, msg: Down)
    ensures forall x :: Awaits(Post(wire, w, msg), x) <==> Awaits(wire, x)
    ensures forall x :: InFlight(Post(wire, w, msg), x) <==> InFlight(wire, x)
  {}

  /** A worker may register if and only if no reply to an earlier connection is due from it:
      otherwise it would at once be both awaited and free, or awaited twice. */
  lemma AddKeeps(m: Master, w: Worker)
    requires MasterOk(m, {}) && w !in m.all
    ensures MasterOk(Add(m, w), {}) <==> !Awaits(m.wire, w)
  {
    var m1 := m.(all := m.all + {w}, wire := Post(m.wire, w, Listening));
    PostKeeps(m.wire, w, Listening);
    if !Awaits(m.wire, w) {
      HandoffKeeps(m1, w, {});
    } else {
      var s :| s in m.wire.callbacks && m.wire.callbacks[s].worker == w;
      if m.handles == [] {
        assert Add(m, w).free[|m.free|] == w;
        assert Awaits(Add(m, w).wire, w);
      } else {
        var t := m.wire.nextSeq;
        assert Add(m, w).wire.callbacks[t].worker == w;
        assert Add(m, w).wire.callbacks[s].worker == w;
      }
    }
  }

  lemma {:induction false} WithoutFacts(s: seq<Worker>, w: Worker)
    requires NoDuplicates(s)
    ensures NoDuplicates(Without(s, w))
    ensures forall x :: x in Without(s, w) <==> x in s && x != w
  {
    if s != [] {
      assert s == [s[0]] + s[1..];
      assert forall i :: 0 <= i < |s| - 1 ==> s[1..][i] == s[i + 1];
      assert s[0] !in s[1..];
      if s[0] != w {
        WithoutFacts(s[1..], w);
      }
    }
  }

  lemma RemoveKeeps(m: Master, w: Worker)
    requires MasterOk(m, {})
    ensures MasterOk(Remove(m, w), {})
  {
    WithoutFacts(m.free, w);
    assert Without(m.free, w) != [] ==> m.free != [];
    assert Remove(m, w).wire.callbacks == m.wire.callbacks;
    assert forall x :: Awaits(Remove(m, w).wire, x) <==> Awaits(m.wire, x);
    assert forall x :: InFlight(Remove(m, w).wire, x) <==> InFlight(m.wire, x);
  }

  lemma TakenCallback(wire: Wire, ack: nat)
    requires ack in wire.callbacks && Numbered(wire)
    ensures var p := wire.callbacks[ack]; var wire' := wire.(callbacks := wire.callbacks - {ack});
      && Numbered(wire')
      && (forall x :: Awaits(wire', x) <==> Awaits(wire, x) && x != p.worker)
      && (forall x :: InFlight(wire', x) <==> InFlight(wire, x) && x != p.conn)
  {
    var p := wire.callbacks[ack];
    var wire' := wire.(callbacks := wire.callbacks - {ack});
    forall x
      ensures Awaits(wire', x) <==> Awaits(wire, x) && x != p.worker
      ensures InFlight(wire', x) <==> InFlight(wire, x) && x != p.conn
    {
      if Awaits(wire, x) && x != p.worker {
        var s :| s in wire.callbacks && wire.callbacks[s].worker == x;
        assert s in wire'.callbacks;
      }
      if InFlight(wire, x) && x != p.conn {
        var s :| s in wire.callbacks && wire.callbacks[s].conn == x;
        assert s in wire'.callbacks;
      }
    }
  }

  lemma OnReplyKeeps(m: Master, ack: nat, accepted: bool)
    requires MasterOk(m, {}) && ack in m.wire.callbacks
    ensures MasterOk(OnReply(m, ack, accepted), {})
  {
    var p := m.wire.callbacks[ack];
    var m1 := m.(wire := m.wire.(callbacks := m.wire.callbacks - {ack}));
    TakenCallback(m.wire, ack);
    assert InFlight(m.wire, p.conn) && Awaits(m.wire, p.worker);
    assert MasterOk(m1, {p.worker});
    if !accepted {
      DistributeKeeps(m1, p.conn, {p.worker});
    }
    var m2 := if accepted then m1 else Distribute(m1, p.conn);
    assert {} + {p.worker} == {p.worker};
    HandoffKeeps(m2, p.worker, {});
  }
}
