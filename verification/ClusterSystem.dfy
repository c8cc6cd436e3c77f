/**
 The master, its workers and the channels between them, for one listening address.

 Safety over every run: where each connection is, and that every reply finds the callback
 it belongs to. A worker that dies takes its channels with it.
 */
module ClusterSystem {
  import opened Prelude
  import opened Cluster

  /** `open`: the workers in which `handles[key]` is defined. `arrived` numbers connections,
      and `log` has one for each time a worker accepted it. */
  datatype System = System(
    master: Master,
    up: map<Worker, seq<Up>>,
    open: set<Worker>,
    accepted: map<Conn, Worker>,
    log: seq<Conn>,
    dead: set<Worker>,
    arrived: nat)

  const START := System(Master(true, {}, [], [], Wire(0, map[], map[], {}, []), [], []), map[], {}, map[], [], {}, 0)

  datatype Event =
    | Connect               // the listening handle accepts a connection
    | Listen(w: Worker)     // a worker asks for the server
    | CloseServer(w: Worker) // a worker closes it
    | WorkerReads(w: Worker)
    | MasterReads(w: Worker)
    | Die(w: Worker)

  /** What can happen: a worker that asks for the server is not registered, which the source asserts. */
  predicate Possible(s: System, e: Event) {
    match e
    case Connect => s.master.live
    case Listen(w) => w !in s.dead
    case CloseServer(w) => w !in s.dead && w in s.open
    case WorkerReads(w) => w !in s.dead && Queue(s.master.wire.down, w) != []
    case MasterReads(w) =>
      && w !in s.dead && Queue(s.up, w) != []
      && (Queue(s.up, w)[0] == Query ==> s.master.live && w !in s.master.all)
    case Die(w) => w !in s.dead
  }

  /** And a worker registers only while no reply is due from it. */
  ghost predicate Enabled(s: System, e: Event) {
    Possible(s, e) &&
    (e.MasterReads? && Queue(s.up, e.w)[0] == Query ==> !Awaits(s.master.wire, e.w))
  }

  function Say(s: System, w: Worker, msg: Up): System {
    s.(up := s.up[w := Queue(s.up, w) + [msg]])
  }

  /** `onconnection` in the worker. */
  function OnConnection(s: System, w: Worker, seqno: nat, c: Conn): System {
    var accepts := w in s.open;
    var s1 := Say(s, w, Ack(seqno, accepts));
    if accepts then s1.(accepted := s1.accepted[c := w], log := s1.log + [c]) else s1
  }

  function WorkerRead(s: System, w: Worker): System
    requires Queue(s.master.wire.down, w) != []
  {
    var q := Queue(s.master.wire.down, w);
    var s1 := s.(master := s.master.(wire := s.master.wire.(down := s.master.wire.down[w := q[1..]])));
    match q[0]
    case Listening => s1.(open := s1.open + {w})
    case NewConn(seqno, c) => OnConnection(s1, w, seqno, c)
  }

  /** `None`: the reply has no callback, or the worker closes a handle that is gone, and the master throws. */
  function MasterRead(s: System, w: Worker): Option<System>
    requires Queue(s.up, w) != []
  {
    var q := Queue(s.up, w);
    var s1 := s.(up := s.up[w := q[1..]]);
    match q[0]
    case Query => Some(s1.(master := Add(s.master, w)))
    case Close => if s.master.live then Some(s1.(master := Remove(s.master, w))) else None
    case Ack(ack, accepted) =>
      if ack in s.master.wire.callbacks then Some(s1.(master := OnReply(s.master, ack, accepted))) else None
  }

  function Dies(s: System, w: Worker): System {
    var m := Remove(s.master, w);
    s.(master := m.(wire := m.wire.(down := m.wire.down[w := []])), up := s.up[w := []], dead := s.dead + {w})
  }

  // ---------------------------------------------------------------- the invariant

  function Offers(q: seq<Down>): nat {
    if q == [] then 0 else (if q[0].NewConn? then 1 else 0) + Offers(q[1..])
  }

  function Replies(q: seq<Up>): nat {
    if q == [] then 0 else (if q[0].Ack? then 1 else 0) + Replies(q[1..])
  }

  lemma {:induction false} OffersSnoc(q: seq<Down>, msg: Down)
    ensures Offers(q + [msg]) == Offers(q) + (if msg.NewConn? then 1 else 0)
  {
    if q == [] {
      assert q + [msg] == [msg] && [msg][1..] == [];
    } else {
      assert (q + [msg])[1..] == q[1..] + [msg];
      OffersSnoc(q[1..], msg);
    }
  }

  lemma {:induction false} RepliesSnoc(q: seq<Up>, msg: Up)
    ensures Replies(q + [msg]) == Replies(q) + (if msg.Ack? then 1 else 0)
  {
    if q == [] {
      assert q + [msg] == [msg] && [msg][1..] == [];
    } else {
      assert (q + [msg])[1..] == q[1..] + [msg];
      RepliesSnoc(q[1..], msg);
    }
  }

  lemma {:induction false} OffersIn(q: seq<Down>, i: nat)
    requires i < |q| && q[i].NewConn?
    ensures Offers(q) > 0
  {
    if i > 0 {
      OffersIn(q[1..], i - 1);
    }
  }

  lemma {:induction false} RepliesIn(q: seq<Up>, i: nat)
    requires i < |q| && q[i].Ack?
    ensures Replies(q) > 0
  {
    if i > 0 {
      RepliesIn(q[1..], i - 1);
    }
  }

  /** An offered connection is in flight to this worker and was not accepted. */
  predicate OfferOk(s: System, w: Worker, msg: Down) {
    msg.NewConn? ==>
      && msg.seqno in s.master.wire.callbacks
      && s.master.wire.callbacks[msg.seqno] == Pending(w, msg.conn)
      && msg.conn !in s.accepted
  }

  /** A reply has its callback, and tells whether this worker accepted the connection. */
  predicate ReplyOk(s: System, w: Worker, msg: Up) {
    msg.Ack? ==>
      && msg.ack in s.master.wire.callbacks
      && s.master.wire.callbacks[msg.ack].worker == w
      && var c := s.master.wire.callbacks[msg.ack].conn;
         if msg.accepted then c in s.accepted && s.accepted[c] == w else c !in s.accepted
  }

  /** Between the master and a living worker there is one offer or reply while the master
      awaits it, and none otherwise. */
  ghost predicate ChannelOk(s: System, w: Worker) {
    var down, up := Queue(s.master.wire.down, w), Queue(s.up, w);
    && (forall i :: 0 <= i < |down| ==> OfferOk(s, w, down[i]))
    && (forall i :: 0 <= i < |up| ==> ReplyOk(s, w, up[i]))
    && (if w in s.dead then down == [] && up == []
        else Offers(down) + Replies(up) == if Awaits(s.master.wire, w) then 1 else 0)
  }

  /** The places a connection can be in. */
  predicate Waiting(s: System, c: Conn) { c in s.master.handles }
  predicate Travelling(s: System, c: Conn) { InFlight(s.master.wire, c) && c !in s.accepted }
  predicate Accepted(s: System, c: Conn) { c in s.accepted }
  predicate Closed(s: System, c: Conn) { c in s.master.wire.closed }

  predicate InOnePlace(s: System, c: Conn) {
    (if Waiting(s, c) then 1 else 0) + (if Travelling(s, c) then 1 else 0)
      + (if Accepted(s, c) then 1 else 0) + (if Closed(s, c) then 1 else 0)
      == if c < s.arrived then 1 else 0
  }

  ghost predicate ChannelsOk(s: System) {
    forall w: Worker :: ChannelOk(s, w)
  }

  ghost predicate PlacesOk(s: System) {
    forall c: Conn :: InOnePlace(s, c)
  }

  /** No connection was accepted twice. */
  ghost predicate LogOk(s: System) {
    NoDuplicates(s.log) && forall c :: c in s.log <==> c in s.accepted
  }

  ghost predicate Inv(s: System) {
    && MasterOk(s.master, {})
    && LogOk(s) && (s.master.live || s.master.all == {})
    && s.master.all !! s.dead
    && ChannelsOk(s) && PlacesOk(s)
  }

  function WithMaster(s: System, m: Master): System {
    s.(master := m)
  }

  // ---------------------------------------------------------------- sending a connection

  lemma SendChannel(s: System, w: Worker, c: Conn, x: Worker)
    requires Numbered(s.master.wire) && ChannelOk(s, x)
    requires w !in s.dead && !Awaits(s.master.wire, w) && c !in s.accepted && !InFlight(s.master.wire, c)
    ensures ChannelOk(WithMaster(s, s.master.(wire := SendConn(s.master.wire, w, c))), x)
  {
    SendAwaits(s.master.wire, w, c);
    OffersSnoc(Queue(s.master.wire.down, w), NewConn(s.master.wire.nextSeq, c));
    var s' := WithMaster(s, s.master.(wire := SendConn(s.master.wire, w, c)));
    assert forall msg :: OfferOk(s, x, msg) ==> OfferOk(s', x, msg);
    assert forall msg :: ReplyOk(s, x, msg) ==> ReplyOk(s', x, msg);
  }

  lemma SendChannels(s: System, w: Worker, c: Conn)
    requires Numbered(s.master.wire) && ChannelsOk(s)
    requires w !in s.dead && !Awaits(s.master.wire, w) && c !in s.accepted && !InFlight(s.master.wire, c)
    ensures ChannelsOk(WithMaster(s, s.master.(wire := SendConn(s.master.wire, w, c))))
  {
    forall x: Worker
      ensures ChannelOk(WithMaster(s, s.master.(wire := SendConn(s.master.wire, w, c))), x)
    {
      SendChannel(s, w, c, x);
    }
  }

  /** Channels depend on the wire only. */
  lemma SameChannels(s: System, m: Master)
    requires ChannelsOk(s) && m.wire == s.master.wire
    ensures ChannelsOk(WithMaster(s, m))
  {
    forall w: Worker
      ensures ChannelOk(WithMaster(s, m), w)
    {
      assert ChannelOk(s, w);
      assert forall msg :: OfferOk(s, w, msg) ==> OfferOk(WithMaster(s, m), w, msg);
      assert forall msg :: ReplyOk(s, w, msg) ==> ReplyOk(WithMaster(s, m), w, msg);
    }
  }

  ghost predicate Consistent(s: System, moving: set<Worker>) {
    MasterOk(s.master, moving) && s.master.all !! s.dead && ChannelsOk(s) && PlacesOk(s)
  }

  lemma HandoffConsistent(s: System, w: Worker, moving: set<Worker>)
    requires Consistent(s, moving + {w}) && w !in moving
    ensures Consistent(WithMaster(s, Handoff(s.master, w)), moving)
  {
    var m := s.master;
    HandoffKeeps(m, w, moving);
    if w in m.all && m.handles != [] {
      var c := m.handles[0];
      assert InOnePlace(s, c) && Waiting(s, c);
      SendChannels(s, w, c);
      SendAwaits(m.wire, w, c);
      SameChannels(WithMaster(s, m.(wire := SendConn(m.wire, w, c))), Handoff(m, w));
      SendPlaces(s, w);
    } else {
      SameChannels(s, Handoff(m, w));
      SamePlaces(s, Handoff(m, w));
    }
  }

  lemma SamePlaces(s: System, m: Master)
    requires PlacesOk(s) && m.handles == s.master.handles && m.wire == s.master.wire
    ensures PlacesOk(WithMaster(s, m))
  {
    forall c: Conn
      ensures InOnePlace(WithMaster(s, m), c)
    {
      assert InOnePlace(s, c);
    }
  }

  lemma SendPlaces(s: System, w: Worker)
    requires Numbered(s.master.wire) && Placed(s.master) && PlacesOk(s) && s.master.handles != []
    ensures var m := s.master;
      PlacesOk(WithMaster(s, m.(handles := m.handles[1..], wire := SendConn(m.wire, w, m.handles[0]))))
  {
    var m := s.master;
    var c0 := m.handles[0];
    var s' := WithMaster(s, m.(handles := m.handles[1..], wire := SendConn(m.wire, w, c0)));
    SendAwaits(m.wire, w, c0);
    assert forall i :: 0 <= i < |m.handles| - 1 ==> m.handles[1..][i] == m.handles[i + 1];
    assert c0 !in m.handles[1..];
    assert m.handles == [c0] + m.handles[1..];
    forall c: Conn
      ensures InOnePlace(s', c)
    {
      assert InOnePlace(s, c) && InOnePlace(s, c0);
    }
  }

  /** All connections but the unplaced `c` are in one place. */
  ghost predicate OthersPlaced(s: System, c: Conn) {
    && c < s.arrived && !Waiting(s, c) && !InFlight(s.master.wire, c) && !Accepted(s, c) && !Closed(s, c)
    && (forall x: Conn :: x != c ==> InOnePlace(s, x))
  }

  lemma DistributeConsistent(s: System, c: Conn, moving: set<Worker>)
    requires MasterOk(s.master, moving) && s.master.all !! s.dead && ChannelsOk(s) && OthersPlaced(s, c)
    ensures Consistent(WithMaster(s, Distribute(s.master, c)), moving)
  {
    var m := s.master;
    DistributeKeeps(m, c, moving);
    var s' := WithMaster(s, Distribute(m, c));
    if m.free == [] {
      SameChannels(s, Distribute(m, c));
      forall x: Conn
        ensures InOnePlace(s', x)
      {
        assert x != c ==> InOnePlace(s, x);
      }
    } else {
      var w := m.free[0];
      assert w in m.free;
      SendChannels(s, w, c);
      SendAwaits(m.wire, w, c);
      assert (m.handles + [c])[1..] == [];
      SameChannels(WithMaster(s, m.(wire := SendConn(m.wire, w, c))), Distribute(m, c));
      forall x: Conn
        ensures InOnePlace(s', x)
      {
        assert x != c ==> InOnePlace(s, x);
      }
    }
  }

  // ---------------------------------------------------------------- the steps

  lemma ConnectKeeps(s: System)
    requires Inv(s)
    ensures Inv(WithMaster(s, Distribute(s.master, s.arrived)).(arrived := s.arrived + 1))
  {
    var c := s.arrived;
    var s1 := s.(arrived := s.arrived + 1);
    assert InOnePlace(s, c);
    forall w: Worker
      ensures ChannelOk(s1, w)
    {
      assert ChannelOk(s, w);
      assert forall msg :: OfferOk(s, w, msg) ==> OfferOk(s1, w, msg);
      assert forall msg :: ReplyOk(s, w, msg) ==> ReplyOk(s1, w, msg);
    }
    forall x: Conn | x != c
      ensures InOnePlace(s1, x)
    {
      assert InOnePlace(s, x);
    }
    DistributeConsistent(s1, c, {});
  }

  /** Saying something that is not a reply. */
  lemma SayKeeps(s: System, w: Worker, msg: Up)
    requires Inv(s) && w !in s.dead && !msg.Ack?
    ensures Inv(Say(s, w, msg))
  {
    var s' := Say(s, w, msg);
    RepliesSnoc(Queue(s.up, w), msg);
    forall x: Worker
      ensures ChannelOk(s', x)
    {
      assert ChannelOk(s, x);
      assert forall msg :: OfferOk(s, x, msg) ==> OfferOk(s', x, msg);
      assert forall msg :: ReplyOk(s, x, msg) ==> ReplyOk(s', x, msg);
    }
    forall c: Conn
      ensures InOnePlace(s', c)
    {
      assert InOnePlace(s, c);
    }
  }

  lemma OpenKeeps(s: System, open: set<Worker>)
    requires Inv(s)
    ensures Inv(s.(open := open))
  {
    var s' := s.(open := open);
    forall x: Worker
      ensures ChannelOk(s', x)
    {
      assert ChannelOk(s, x);
      assert forall msg :: OfferOk(s, x, msg) ==> OfferOk(s', x, msg);
      assert forall msg :: ReplyOk(s, x, msg) ==> ReplyOk(s', x, msg);
    }
    forall c: Conn
      ensures InOnePlace(s', c)
    {
      assert InOnePlace(s, c);
    }
  }

  /** The state after worker `w` has taken its next message off its channel. */
  function TakeDown(s: System, w: Worker): System
    requires Queue(s.master.wire.down, w) != []
  {
    WithMaster(s, s.master.(wire := s.master.wire.(down := s.master.wire.down[w := Queue(s.master.wire.down, w)[1..]])))
  }

  lemma TakeDownMaster(s: System, w: Worker)
    requires Queue(s.master.wire.down, w) != [] && MasterOk(s.master, {})
    ensures MasterOk(TakeDown(s, w).master, {})
    ensures forall x :: Awaits(TakeDown(s, w).master.wire, x) <==> Awaits(s.master.wire, x)
    ensures forall c :: InFlight(TakeDown(s, w).master.wire, c) <==> InFlight(s.master.wire, c)
  {
    var wire, wire' := s.master.wire, TakeDown(s, w).master.wire;
    assert wire'.callbacks == wire.callbacks;
    assert forall x :: Awaits(wire', x) <==> Awaits(wire, x);
    assert forall c :: InFlight(wire', c) <==> InFlight(wire, c);
  }

  lemma ListeningKeeps(s: System, w: Worker)
    requires Inv(s) && Queue(s.master.wire.down, w) != [] && Queue(s.master.wire.down, w)[0] == Listening
    ensures Inv(TakeDown(s, w).(open := s.open + {w}))
  {
    var s1 := TakeDown(s, w);
    TakeDownMaster(s, w);
    forall x: Worker
      ensures ChannelOk(s1, x)
    {
      assert ChannelOk(s, x);
      assert forall msg :: OfferOk(s, x, msg) ==> OfferOk(s1, x, msg);
      assert forall msg :: ReplyOk(s, x, msg) ==> ReplyOk(s1, x, msg);
    }
    forall c: Conn
      ensures InOnePlace(s1, c)
    {
      assert InOnePlace(s, c);
    }
    OpenKeeps(s1, s.open + {w});
  }

  lemma NoOffers(q: seq<Down>)
    requires Offers(q) == 0
    ensures forall i :: 0 <= i < |q| ==> !q[i].NewConn?
  {
    forall i | 0 <= i < |q|
      ensures !q[i].NewConn?
    {
      if q[i].NewConn? {
        OffersIn(q, i);
      }
    }
  }

  lemma NoReplies(q: seq<Up>)
    requires Replies(q) == 0
    ensures forall i :: 0 <= i < |q| ==> !q[i].Ack?
  {
    forall i | 0 <= i < |q|
      ensures !q[i].Ack?
    {
      if q[i].Ack? {
        RepliesIn(q, i);
      }
    }
  }

  /** Accepting a connection does not disturb the channels of the other workers. */
  lemma OtherChannel(s: System, s2: System, seqno: nat, w: Worker, c: Conn, x: Worker)
    requires Numbered(s.master.wire) && ChannelOk(s, x) && x != w
    requires seqno in s.master.wire.callbacks && s.master.wire.callbacks[seqno] == Pending(w, c)
    requires s2.master.wire.callbacks == s.master.wire.callbacks && s2.dead == s.dead
    requires s2.accepted == s.accepted || s2.accepted == s.accepted[c := w]
    requires Queue(s2.master.wire.down, x) == Queue(s.master.wire.down, x) && Queue(s2.up, x) == Queue(s.up, x)
    ensures ChannelOk(s2, x)
  {
    assert forall msg :: OfferOk(s, x, msg) ==> OfferOk(s2, x, msg);
    assert forall msg :: ReplyOk(s, x, msg) ==> ReplyOk(s2, x, msg);
    assert Awaits(s2.master.wire, x) <==> Awaits(s.master.wire, x);
  }

  /** The worker's own channel: the offer became a reply. */
  lemma OwnChannel(s: System, w: Worker)
    requires Inv(s) && Queue(s.master.wire.down, w) != [] && Queue(s.master.wire.down, w)[0].NewConn?
    ensures var msg := Queue(s.master.wire.down, w)[0];
      ChannelOk(OnConnection(TakeDown(s, w), w, msg.seqno, msg.conn), w)
  {
    var down, up := Queue(s.master.wire.down, w), Queue(s.up, w);
    var msg := down[0];
    assert ChannelOk(s, w) && OfferOk(s, w, msg);
    TakeDownMaster(s, w);
    RepliesSnoc(up, Ack(msg.seqno, w in s.open));
    assert Offers(down[1..]) == 0 && Replies(up) == 0;
    NoOffers(down[1..]);
    NoReplies(up);
  }

  lemma OtherChannels(s: System, w: Worker, x: Worker)
    requires Inv(s) && Queue(s.master.wire.down, w) != [] && Queue(s.master.wire.down, w)[0].NewConn? && x != w
    ensures var msg := Queue(s.master.wire.down, w)[0];
      ChannelOk(OnConnection(TakeDown(s, w), w, msg.seqno, msg.conn), x)
  {
    var msg := Queue(s.master.wire.down, w)[0];
    assert ChannelOk(s, w) && OfferOk(s, w, msg) && ChannelOk(s, x);
    OtherChannel(s, OnConnection(TakeDown(s, w), w, msg.seqno, msg.conn), msg.seqno, w, msg.conn, x);
  }

  lemma OnConnectionKeeps(s: System, w: Worker)
    requires Inv(s) && Queue(s.master.wire.down, w) != [] && Queue(s.master.wire.down, w)[0].NewConn?
    ensures var msg := Queue(s.master.wire.down, w)[0];
      Inv(OnConnection(TakeDown(s, w), w, msg.seqno, msg.conn))
  {
    var msg := Queue(s.master.wire.down, w)[0];
    var s2 := OnConnection(TakeDown(s, w), w, msg.seqno, msg.conn);
    assert ChannelOk(s, w) && OfferOk(s, w, msg);
    TakeDownMaster(s, w);
    forall x: Worker
      ensures ChannelOk(s2, x)
    {
      if x == w {
        OwnChannel(s, w);
      } else {
        OtherChannels(s, w, x);
      }
    }
    forall c: Conn
      ensures InOnePlace(s2, c)
    {
      assert InOnePlace(s, c);
    }
  }

  function TakeUp(s: System, w: Worker): System
    requires Queue(s.up, w) != []
  {
    s.(up := s.up[w := Queue(s.up, w)[1..]])
  }

  lemma TakeUpKeeps(s: System, w: Worker)
    requires Inv(s) && Queue(s.up, w) != [] && !Queue(s.up, w)[0].Ack?
    ensures Inv(TakeUp(s, w))
  {
    var s1 := TakeUp(s, w);
    forall x: Worker
      ensures ChannelOk(s1, x)
    {
      assert ChannelOk(s, x);
      assert forall msg :: OfferOk(s, x, msg) ==> OfferOk(s1, x, msg);
      assert forall msg :: ReplyOk(s, x, msg) ==> ReplyOk(s1, x, msg);
    }
    forall c: Conn
      ensures InOnePlace(s1, c)
    {
      assert InOnePlace(s, c);
    }
  }

  lemma QueryKeeps(s: System, w: Worker)
    requires Inv(s) && s.master.live && w !in s.dead && w !in s.master.all && !Awaits(s.master.wire, w)
    ensures Inv(WithMaster(s, Add(s.master, w)))
  {
    var m := s.master;
    var m1 := m.(all := m.all + {w}, wire := Post(m.wire, w, Listening));
    var s1 := WithMaster(s, m1);
    PostKeeps(m.wire, w, Listening);
    OffersSnoc(Queue(m.wire.down, w), Listening);
    forall x: Worker
      ensures ChannelOk(s1, x)
    {
      assert ChannelOk(s, x);
      assert forall msg :: OfferOk(s, x, msg) ==> OfferOk(s1, x, msg);
      assert forall msg :: ReplyOk(s, x, msg) ==> ReplyOk(s1, x, msg);
    }
    forall c: Conn
      ensures InOnePlace(s1, c)
    {
      assert InOnePlace(s, c);
    }
    assert {} + {w} == {w};
    HandoffConsistent(s1, w, {});
  }

  lemma RemoveSystem(s: System, w: Worker)
    requires Inv(s)
    ensures Inv(WithMaster(s, Remove(s.master, w))) && w !in Remove(s.master, w).all
  {
    var m := Remove(s.master, w);
    var s1 := WithMaster(s, m);
    RemoveKeeps(s.master, w);
    assert m.wire.callbacks == s.master.wire.callbacks && m.wire.down == s.master.wire.down;
    assert forall x :: Awaits(m.wire, x) <==> Awaits(s.master.wire, x);
    assert forall c :: InFlight(m.wire, c) <==> InFlight(s.master.wire, c);
    forall x: Worker
      ensures ChannelOk(s1, x)
    {
      assert ChannelOk(s, x);
      assert forall msg :: OfferOk(s, x, msg) ==> OfferOk(s1, x, msg);
      assert forall msg :: ReplyOk(s, x, msg) ==> ReplyOk(s1, x, msg);
    }
    forall c: Conn
      ensures InOnePlace(s1, c)
    {
      assert InOnePlace(s, c);
    }
  }

  /** The state in which the callback of a reply is called. */
  function TakeReply(s: System, w: Worker): System
    requires Queue(s.up, w) != [] && Queue(s.up, w)[0].Ack?
  {
    var wire := s.master.wire;
    WithMaster(TakeUp(s, w), s.master.(wire := wire.(callbacks := wire.callbacks - {Queue(s.up, w)[0].ack})))
  }

  lemma TakeReplyChannel(s: System, w: Worker, x: Worker)
    requires Inv(s) && w !in s.dead && Queue(s.up, w) != [] && Queue(s.up, w)[0].Ack?
    ensures ChannelOk(TakeReply(s, w), x)
  {
    var s1, ack := TakeReply(s, w), Queue(s.up, w)[0].ack;
    assert ChannelOk(s, w) && ReplyOk(s, w, Queue(s.up, w)[0]);
    assert ChannelOk(s, x);
    TakenCallback(s.master.wire, ack);
    if x == w {
      NoOffers(Queue(s.master.wire.down, w));
      NoReplies(Queue(s.up, w)[1..]);
    } else {
      assert forall msg :: OfferOk(s, x, msg) ==> OfferOk(s1, x, msg);
      assert forall msg :: ReplyOk(s, x, msg) ==> ReplyOk(s1, x, msg);
    }
  }

  lemma ReplyKeeps(s: System, w: Worker)
    requires Inv(s) && w !in s.dead && Queue(s.up, w) != [] && Queue(s.up, w)[0].Ack?
    ensures var msg := Queue(s.up, w)[0];
      && msg.ack in s.master.wire.callbacks
      && Inv(WithMaster(TakeUp(s, w), OnReply(s.master, msg.ack, msg.accepted)))
  {
    var msg := Queue(s.up, w)[0];
    assert ChannelOk(s, w) && ReplyOk(s, w, msg);
    var s1, p := TakeReply(s, w), s.master.wire.callbacks[msg.ack];
    assert p.worker == w;
    TakenCallback(s.master.wire, msg.ack);
    assert InFlight(s.master.wire, p.conn) && Awaits(s.master.wire, w);
    assert MasterOk(s1.master, {w});
    forall x: Worker
      ensures ChannelOk(s1, x)
    {
      TakeReplyChannel(s, w, x);
    }
    forall x: Conn
      ensures x != p.conn || msg.accepted ==> InOnePlace(s1, x)
    {
      assert InOnePlace(s, x);
    }
    assert {} + {w} == {w};
    if msg.accepted {
      HandoffConsistent(s1, w, {});
    } else {
      assert InOnePlace(s, p.conn);
      DistributeConsistent(s1, p.conn, {w});
      HandoffConsistent(WithMaster(s1, Distribute(s1.master, p.conn)), w, {});
    }
  }

  lemma DieKeeps(s: System, w: Worker)
    requires Inv(s)
    ensures Inv(Dies(s, w))
  {
    RemoveSystem(s, w);
    var s1, s2 := WithMaster(s, Remove(s.master, w)), Dies(s, w);
    assert s2.master.wire.callbacks == s1.master.wire.callbacks;
    assert forall x :: Awaits(s2.master.wire, x) <==> Awaits(s1.master.wire, x);
    assert forall c :: InFlight(s2.master.wire, c) <==> InFlight(s1.master.wire, c);
    forall x: Worker
      ensures ChannelOk(s2, x)
    {
      assert ChannelOk(s1, x);
      assert forall msg :: OfferOk(s1, x, msg) ==> OfferOk(s2, x, msg);
      assert forall msg :: ReplyOk(s1, x, msg) ==> ReplyOk(s2, x, msg);
    }
    forall c: Conn
      ensures InOnePlace(s2, c)
    {
      assert InOnePlace(s1, c);
    }
  }

  // ---------------------------------------------------------------- who is registered

  function Listenings(q: seq<Down>): nat {
    if q == [] then 0 else (if q[0].Listening? then 1 else 0) + Listenings(q[1..])
  }

  function Closes(q: seq<Up>): nat {
    if q == [] then 0 else (if q[0].Close? then 1 else 0) + Closes(q[1..])
  }

  lemma {:induction false} ListeningsSnoc(q: seq<Down>, msg: Down)
    ensures Listenings(q + [msg]) == Listenings(q) + (if msg.Listening? then 1 else 0)
  {
    if q == [] {
      assert q + [msg] == [msg] && [msg][1..] == [];
    } else {
      assert (q + [msg])[1..] == q[1..] + [msg];
      ListeningsSnoc(q[1..], msg);
    }
  }

  lemma {:induction false} ClosesSnoc(q: seq<Up>, msg: Up)
    ensures Closes(q + [msg]) == Closes(q) + (if msg.Close? then 1 else 0)
  {
    if q == [] {
      assert q + [msg] == [msg] && [msg][1..] == [];
    } else {
      assert (q + [msg])[1..] == q[1..] + [msg];
      ClosesSnoc(q[1..], msg);
    }
  }

  /** The signs that a worker is registered: it will hear so, it has the server, or it will say
      that it has closed it. */
  function Held(s: System, w: Worker): nat {
    Listenings(Queue(s.master.wire.down, w)) + (if w in s.open then 1 else 0) + Closes(Queue(s.up, w))
  }

  /** A living worker that is registered shows exactly one sign, and another one none. */
  ghost predicate HoldsOk(s: System) {
    forall w: Worker :: w !in s.dead ==> Held(s, w) == if w in s.master.all then 1 else 0
  }

  lemma StartHolds()
    ensures HoldsOk(START)
  {
    assert Listenings([]) == 0 && Closes([]) == 0;
  }

  /** The next message of a worker says that it closed the server: the worker is registered, so the
      master knows the handle. */
  lemma CloserIsKnown(s: System, w: Worker)
    requires Inv(s) && HoldsOk(s) && w !in s.dead && Queue(s.up, w) != [] && Queue(s.up, w)[0].Close?
    ensures w in s.master.all && s.master.live
  {
    assert Held(s, w) >= 1;
  }

  /** Nothing about registration changed. */
  ghost predicate SameWorkers(m: Master, m': Master) {
    m'.all == m.all && forall x :: Listenings(Queue(m'.wire.down, x)) == Listenings(Queue(m.wire.down, x))
  }

  lemma HandoffWorkers(m: Master, w: Worker)
    ensures SameWorkers(m, Handoff(m, w))
  {
    if w in m.all && m.handles != [] {
      ListeningsSnoc(Queue(m.wire.down, w), NewConn(m.wire.nextSeq, m.handles[0]));
    }
  }

  lemma DistributeWorkers(m: Master, c: Conn)
    ensures SameWorkers(m, Distribute(m, c))
  {
    if m.free != [] {
      HandoffWorkers(m.(handles := m.handles + [c], free := m.free[1..], joined := m.joined + [c],
                       turns := m.turns + [Called(m.free[0])]), m.free[0]);
    }
  }

  lemma ReplyWorkers(m: Master, ack: nat, accepted: bool)
    requires ack in m.wire.callbacks
    ensures SameWorkers(m, OnReply(m, ack, accepted))
  {
    var p := m.wire.callbacks[ack];
    var m1 := m.(wire := m.wire.(callbacks := m.wire.callbacks - {ack}));
    if !accepted {
      DistributeWorkers(m1, p.conn);
    }
    HandoffWorkers(if accepted then m1 else Distribute(m1, p.conn), p.worker);
  }

  lemma MasterReadHolds(s: System, w: Worker)
    requires Inv(s) && HoldsOk(s) && Possible(s, MasterReads(w))
    ensures MasterRead(s, w).Some? ==> HoldsOk(MasterRead(s, w).value)
  {
    match Queue(s.up, w)[0] {
      case Query =>
        var m1 := s.master.(all := s.master.all + {w}, wire := Post(s.master.wire, w, Listening));
        ListeningsSnoc(Queue(s.master.wire.down, w), Listening);
        HandoffWorkers(m1, w);
      case Close => CloserIsKnown(s, w);
      case Ack(ack, accepted) =>
        if ack in s.master.wire.callbacks {
          ReplyWorkers(s.master, ack, accepted);
        }
    }
  }

  lemma WorkerReadHolds(s: System, w: Worker)
    requires HoldsOk(s) && Possible(s, WorkerReads(w))
    ensures HoldsOk(WorkerRead(s, w))
  {
    match Queue(s.master.wire.down, w)[0] {
      case Listening => assert Held(s, w) >= 1;
      case NewConn(seqno, _) => ClosesSnoc(Queue(s.up, w), Ack(seqno, w in s.open));
    }
  }

  lemma StepHolds(s: System, e: Event)
    requires Inv(s) && HoldsOk(s) && Possible(s, e)
    ensures Step(s, e).Some? ==> HoldsOk(Step(s, e).value)
  {
    match e {
      case Connect => DistributeWorkers(s.master, s.arrived);
      case Listen(w) => ClosesSnoc(Queue(s.up, w), Query);
      case CloseServer(w) => ClosesSnoc(Queue(s.up, w), Close);
      case WorkerReads(w) => WorkerReadHolds(s, w);
      case MasterReads(w) => MasterReadHolds(s, w);
      case Die(w) =>
    }
  }

  // ---------------------------------------------------------------- runs

  function Step(s: System, e: Event): Option<System>
    requires Possible(s, e)
  {
    match e
    case Connect => Some(WithMaster(s, Distribute(s.master, s.arrived)).(arrived := s.arrived + 1))
    case Listen(w) => Some(Say(s, w, Query))
    case CloseServer(w) => Some(Say(s.(open := s.open - {w}), w, Close))
    case WorkerReads(w) => Some(WorkerRead(s, w))
    case MasterReads(w) => MasterRead(s, w)
    case Die(w) => Some(Dies(s, w))
  }

  /** Every step of master and workers keeps the invariant; no reply lacks its callback, and no worker
      closes a handle that is gone. */
  lemma StepKeeps(s: System, e: Event)
    requires Inv(s) && HoldsOk(s) && Enabled(s, e)
    ensures Step(s, e).Some? && Inv(Step(s, e).value) && HoldsOk(Step(s, e).value)
  {
    StepHolds(s, e);
    StepInv(s, e);
  }

  lemma StepInv(s: System, e: Event)
    requires Inv(s) && HoldsOk(s) && Enabled(s, e)
    ensures Step(s, e).Some? && Inv(Step(s, e).value)
  {
    match e
    case Connect => ConnectKeeps(s);
    case Listen(w) => SayKeeps(s, w, Query);
    case CloseServer(w) =>
      OpenKeeps(s, s.open - {w});
      SayKeeps(s.(open := s.open - {w}), w, Close);
    case WorkerReads(w) =>
      match Queue(s.master.wire.down, w)[0] {
        case Listening => ListeningKeeps(s, w);
        case NewConn(_, _) => OnConnectionKeeps(s, w);
      }
    case MasterReads(w) =>
      match Queue(s.up, w)[0] {
        case Query => TakeUpKeeps(s, w); QueryKeeps(TakeUp(s, w), w);
        case Close => CloserIsKnown(s, w); TakeUpKeeps(s, w); RemoveSystem(TakeUp(s, w), w);
        case Ack(_, _) => ReplyKeeps(s, w);
      }
    case Die(w) => DieKeeps(s, w);
  }

  lemma StartInv()
    ensures Inv(START)
  {
    var s := START;
    assert forall x :: !Awaits(s.master.wire, x);
    forall w: Worker
      ensures ChannelOk(s, w)
    {
      assert Queue(s.master.wire.down, w) == [] && Queue(s.up, w) == [];
      assert Offers([]) == 0 && Replies([]) == 0;
    }
  }

  datatype Outcome = Reached(s: System) | NotEnabled | Throws

  /** What a sequence of events leads to. */
  ghost function After(es: seq<Event>): Outcome {
    if es == [] then Reached(START)
    else
      match After(es[..|es| - 1])
      case Reached(s) =>
        if !Enabled(s, es[|es| - 1]) then NotEnabled
        else (match Step(s, es[|es| - 1]) case Some(s') => Reached(s') case None => Throws)
      case outcome => outcome
  }

  lemma {:induction false} RunInv(es: seq<Event>)
    ensures match After(es)
      case Reached(s) => Inv(s) && HoldsOk(s)
      case NotEnabled => true
      case Throws => false
  {
    if es == [] {
      StartInv();
      StartHolds();
    } else {
      RunInv(es[..|es| - 1]);
      match After(es[..|es| - 1])
      case Reached(s) =>
        if Enabled(s, es[|es| - 1]) {
          StepKeeps(s, es[|es| - 1]);
        }
      case _ =>
    }
  }

  /** On every run: no callback is missing; the ready queue has no duplicates and holds
      registered workers only; a registered worker is free or awaiting one reply, never both;
      while a connection waits every registered worker is busy; at most one reply is due from
      a worker; every connection that arrived is in exactly one place; and
      none was accepted twice. */
  lemma Scheduling(es: seq<Event>)
    ensures After(es) != Throws
    ensures After(es).Reached? ==>
      var s := After(es).s;
      && NoDuplicates(s.master.free)
      && (forall w :: w in s.master.free ==> w in s.master.all)
      && (forall w :: w in s.master.all ==> (w in s.master.free <==> !Awaits(s.master.wire, w)))
      && (s.master.handles != [] ==> forall w :: w in s.master.all ==> Awaits(s.master.wire, w))
      && (forall i, j :: i in s.master.wire.callbacks && j in s.master.wire.callbacks && i != j ==>
            s.master.wire.callbacks[i].worker != s.master.wire.callbacks[j].worker)
      && (forall c: Conn :: InOnePlace(s, c))
      && NoDuplicates(s.log) && (forall c :: c in s.log <==> Accepted(s, c))
  {
    RunInv(es);
  }

  // ---------------------------------------------------------------- after the last worker

  /** The listening handle is closed and no worker is registered: this state is final. */
  predicate TornDown(s: System) {
    !s.master.live && s.master.all == {} && s.master.free == []
  }

  /** The reply that turns the connection down. */
  predicate TurnsDown(s: System, e: Event, c: Conn) {
    && e.MasterReads? && Queue(s.up, e.w) != [] && Queue(s.up, e.w)[0].Ack? && !Queue(s.up, e.w)[0].accepted
    && Queue(s.up, e.w)[0].ack in s.master.wire.callbacks
    && s.master.wire.callbacks[Queue(s.up, e.w)[0].ack].conn == c
  }

  /** The connection waits on a list that nobody serves any more. */
  predicate Stranded(s: System, c: Conn) {
    TornDown(s) && Waiting(s, c)
  }

  /** The reply to the offer of the connection is due from this worker, and it was not accepted. */
  predicate OfferedTo(s: System, w: Worker, c: Conn) {
    c !in s.accepted && exists k :: k in s.master.wire.callbacks && s.master.wire.callbacks[k] == Pending(w, c)
  }

  /** It is due from a worker that is dead. */
  predicate Lost(s: System, c: Conn) {
    exists w :: w in s.dead && OfferedTo(s, w, c)
  }

  /** Nobody will serve or close the connection. */
  predicate Forgotten(s: System, c: Conn) {
    Stranded(s, c) || Lost(s, c)
  }

  /** A connection is put on the list of a handle that is gone by a reply that turns it down. */
  lemma StrandedStep(s: System, e: Event, c: Conn)
    requires Inv(s) && HoldsOk(s) && Enabled(s, e)
    ensures Step(s, e).Some?
    ensures !Stranded(s, c) ==> (Stranded(Step(s, e).value, c) <==> TornDown(s) && TurnsDown(s, e, c))
    ensures Stranded(s, c) ==> Stranded(Step(s, e).value, c)
  {
    StepInv(s, e);
    if e.MasterReads? {
      assert ChannelOk(s, e.w) && ReplyOk(s, e.w, Queue(s.up, e.w)[0]);
      if Queue(s.up, e.w)[0].Close? {
        CloserIsKnown(s, e.w);
      }
    }
  }

  /** The replies due from these workers are the same. */
  ghost predicate SameDue(wire: Wire, wire': Wire, dead: set<Worker>) {
    forall k, p: Pending :: p.worker in dead ==>
      ((k in wire.callbacks && wire.callbacks[k] == p) <==> (k in wire'.callbacks && wire'.callbacks[k] == p))
  }

  predicate Fresh(wire: Wire) {
    forall k :: k in wire.callbacks ==> k < wire.nextSeq
  }

  /** Connections are given to workers that live. */
  lemma HandoffDue(m: Master, w: Worker, dead: set<Worker>)
    requires m.all !! dead && Fresh(m.wire)
    ensures SameDue(m.wire, Handoff(m, w).wire, dead) && Fresh(Handoff(m, w).wire)
  {}

  lemma DistributeDue(m: Master, c: Conn, dead: set<Worker>)
    requires m.all !! dead && Fresh(m.wire)
    ensures SameDue(m.wire, Distribute(m, c).wire, dead) && Fresh(Distribute(m, c).wire)
  {
    if m.free != [] {
      HandoffDue(m.(handles := m.handles + [c], free := m.free[1..], joined := m.joined + [c],
                       turns := m.turns + [Called(m.free[0])]), m.free[0], dead);
    }
  }

  lemma ReplyDue(m: Master, ack: nat, accepted: bool, dead: set<Worker>)
    requires m.all !! dead && Fresh(m.wire) && ack in m.wire.callbacks && m.wire.callbacks[ack].worker !in dead
    ensures SameDue(m.wire, OnReply(m, ack, accepted).wire, dead)
  {
    var p := m.wire.callbacks[ack];
    var m1 := m.(wire := m.wire.(callbacks := m.wire.callbacks - {ack}));
    var m2 := if accepted then m1 else Distribute(m1, p.conn);
    DistributeDue(m1, p.conn, dead);
    HandoffDue(m2, p.worker, dead);
  }

  lemma StepDue(s: System, e: Event)
    requires Inv(s) && Enabled(s, e)
    ensures Step(s, e).Some? ==> SameDue(s.master.wire, Step(s, e).value.master.wire, s.dead)
  {
    match e {
      case Connect => DistributeDue(s.master, s.arrived, s.dead);
      case MasterReads(w) =>
        assert ChannelOk(s, w) && ReplyOk(s, w, Queue(s.up, w)[0]);
        match Queue(s.up, w)[0] {
          case Query =>
            HandoffDue(s.master.(all := s.master.all + {w}, wire := Post(s.master.wire, w, Listening)), w, s.dead);
          case Close =>
          case Ack(ack, accepted) => ReplyDue(s.master, ack, accepted, s.dead);
        }
      case _ =>
    }
  }

  /** What a worker accepts is not due from another worker. */
  lemma AcceptsOwn(s: System, w: Worker, d: Worker, c: Conn)
    requires Inv(s) && Enabled(s, WorkerReads(w)) && d != w && OfferedTo(s, d, c)
    ensures c !in WorkerRead(s, w).accepted
  {
    var msg := Queue(s.master.wire.down, w)[0];
    assert ChannelOk(s, w) && OfferOk(s, w, msg);
  }

  lemma AcceptedStays(s: System, e: Event, d: Worker, c: Conn)
    requires Inv(s) && Enabled(s, e) && d in s.dead && OfferedTo(s, d, c) && Step(s, e).Some?
    ensures c !in Step(s, e).value.accepted
  {
    if e.WorkerReads? {
      AcceptsOwn(s, e.w, d, c);
    }
  }

  lemma LostStays(s: System, e: Event, d: Worker, c: Conn)
    requires Inv(s) && Enabled(s, e) && Step(s, e).Some? && d in s.dead
    ensures OfferedTo(s, d, c) <==> OfferedTo(Step(s, e).value, d, c)
  {
    StepDue(s, e);
    if OfferedTo(s, d, c) {
      AcceptedStays(s, e, d, c);
    }
  }

  lemma DeathLoses(s: System, w: Worker, c: Conn)
    requires Inv(s) && Enabled(s, Die(w))
    ensures OfferedTo(s, w, c) <==> OfferedTo(Dies(s, w), w, c)
  {}

  lemma WhoIsDead(s: System, e: Event)
    requires Enabled(s, e) && Step(s, e).Some?
    ensures Step(s, e).value.dead == if e.Die? then s.dead + {e.w} else s.dead
  {}

  /** A worker that dies takes what it was offered with it, and nothing else does. */
  lemma LostStep(s: System, e: Event, c: Conn)
    requires Inv(s) && HoldsOk(s) && Enabled(s, e)
    ensures Step(s, e).Some?
    ensures Lost(Step(s, e).value, c) <==> Lost(s, c) || (e.Die? && OfferedTo(s, e.w, c))
  {
    StepInv(s, e);
    WhoIsDead(s, e);
    forall d | d in s.dead ensures OfferedTo(s, d, c) <==> OfferedTo(Step(s, e).value, d, c) {
      LostStays(s, e, d, c);
    }
    if e.Die? {
      DeathLoses(s, e.w, c);
    }
  }

  /** A connection gets forgotten exactly if a worker turns it down after the last worker was removed,
      or dies before it answers the offer; and then it stays so, whatever happens. */
  lemma StrandedIff(s: System, e: Event, c: Conn)
    requires Inv(s) && HoldsOk(s) && Enabled(s, e)
    ensures Step(s, e).Some?
    ensures !Forgotten(s, c) ==> (Forgotten(Step(s, e).value, c) <==>
              (TornDown(s) && TurnsDown(s, e, c)) || (e.Die? && OfferedTo(s, e.w, c)))
    ensures Forgotten(s, c) ==> Forgotten(Step(s, e).value, c)
  {
    StrandedStep(s, e, c);
    LostStep(s, e, c);
  }

  lemma {:induction false} OfferAt(q: seq<Down>) returns (i: nat)
    requires Offers(q) > 0
    ensures i < |q| && q[i].NewConn?
  {
    if q[0].NewConn? {
      i := 0;
    } else {
      i := OfferAt(q[1..]);
      i := i + 1;
    }
  }

  lemma {:induction false} ReplyAt(q: seq<Up>) returns (i: nat)
    requires Replies(q) > 0
    ensures i < |q| && q[i].Ack?
  {
    if q[0].Ack? {
      i := 0;
    } else {
      i := ReplyAt(q[1..]);
      i := i + 1;
    }
  }

  predicate Offered(s: System, w: Worker, c: Conn) {
    var down := Queue(s.master.wire.down, w);
    exists i :: 0 <= i < |down| && down[i].NewConn? && down[i].conn == c
  }

  predicate Answered(s: System, w: Worker, k: nat) {
    var up := Queue(s.up, w);
    exists i :: 0 <= i < |up| && up[i] == Ack(k, false)
  }

  predicate OnTheWay(s: System, c: Conn) {
    exists k :: k in s.master.wire.callbacks &&
      var p := s.master.wire.callbacks[k];
      p.conn == c && p.worker !in s.dead && (Offered(s, p.worker, c) || Answered(s, p.worker, k))
  }

  /** A connection that is not forgotten and neither accepted nor closed waits for a handle that is
      open, or is on its way to a living worker, or back from one. */
  lemma NotForgotten(s: System, c: Conn)
    requires Inv(s) && c < s.arrived && !Forgotten(s, c) && !Accepted(s, c) && !Closed(s, c)
    ensures (Waiting(s, c) && s.master.live) || OnTheWay(s, c)
  {
    assert InOnePlace(s, c);
    if !Waiting(s, c) {
      var k :| k in s.master.wire.callbacks && s.master.wire.callbacks[k].conn == c;
      var w := s.master.wire.callbacks[k].worker;
      assert OfferedTo(s, w, c);
      assert ChannelOk(s, w) && Awaits(s.master.wire, w);
      OnItsWay(s, w, k);
    }
  }

  lemma OnItsWay(s: System, w: Worker, k: nat)
    requires Inv(s) && w !in s.dead && k in s.master.wire.callbacks && s.master.wire.callbacks[k].worker == w
    requires s.master.wire.callbacks[k].conn !in s.accepted
    ensures Offered(s, w, s.master.wire.callbacks[k].conn) || Answered(s, w, k)
  {
    assert ChannelOk(s, w) && Awaits(s.master.wire, w);
    if Offers(Queue(s.master.wire.down, w)) > 0 {
      var i := OfferAt(Queue(s.master.wire.down, w));
      assert OfferOk(s, w, Queue(s.master.wire.down, w)[i]);
    } else {
      var i := ReplyAt(Queue(s.up, w));
      assert ReplyOk(s, w, Queue(s.up, w)[i]);
    }
  }

  lemma Next(es: seq<Event>, e: Event)
    requires After(es).Reached? && Enabled(After(es).s, e)
    ensures After(es + [e]) == match Step(After(es).s, e) case Some(s') => Reached(s') case None => Throws
  {
    assert (es + [e])[..|es|] == es;
  }

  /** Worker 0 alone, before any connection arrived. */
  predicate Alone(s: System, all: set<Worker>, open: set<Worker>, down: seq<Down>, up: seq<Up>) {
    && s.master.live && s.master.all == all && s.master.free == (if 0 in all then [0] else [])
    && s.master.handles == [] && s.master.wire.callbacks == map[] && s.master.wire.nextSeq == 0
    && s.open == open && s.accepted == map[] && s.arrived == 0 && s.dead == {}
    && Queue(s.master.wire.down, 0) == down && Queue(s.up, 0) == up && Queue(s.up, 1) == []
  }

  lemma AsksFirst()
    ensures After([Listen(0)]).Reached? && Alone(After([Listen(0)]).s, {}, {}, [], [Query])
  {
    Next([], Listen(0));
    assert [] + [Listen(0)] == [Listen(0)] && [] + [Query] == [Query];
  }

  lemma IsAdded(s: System)
    requires Alone(s, {}, {}, [], [Query])
    ensures Enabled(s, MasterReads(0)) && Step(s, MasterReads(0)).Some?
    ensures Alone(Step(s, MasterReads(0)).value, {0}, {}, [Listening], [])
  {
    assert [] + [Listening] == [Listening] && [Query][1..] == [];
  }

  lemma Opens(s: System)
    requires Alone(s, {0}, {}, [Listening], [])
    ensures Enabled(s, WorkerReads(0)) && Step(s, WorkerReads(0)).Some?
    ensures Alone(Step(s, WorkerReads(0)).value, {0}, {0}, [], [])
  {
    assert [Listening][1..] == [];
  }

  /** One worker has asked for the server and got it. */
  lemma Registered() returns (es: seq<Event>)
    ensures After(es).Reached? && Alone(After(es).s, {0}, {0}, [], [])
  {
    AsksFirst();
    es := [Listen(0)];
    IsAdded(After(es).s);
    Next(es, MasterReads(0));
    es := es + [MasterReads(0)];
    Opens(After(es).s);
    Next(es, WorkerReads(0));
    es := es + [WorkerReads(0)];
  }

  /** It is offered a connection, and closes the server before it reads the offer. */
  lemma ClosedInBetween() returns (es: seq<Event>)
    ensures After(es).Reached?
    ensures var s := After(es).s;
      && TornDown(s) && s.master.handles == [] && s.open == {} && s.dead == {} && Queue(s.up, 0) == []
      && s.master.wire.callbacks == map[0 := Pending(0, 0)] && Queue(s.master.wire.down, 0) == [NewConn(0, 0)]
  {
    es := Registered();
    Next(es, Connect);
    es := es + [Connect];
    var s := After(es).s;
    assert [] + [0] == [0] && [0][1..] == [];
    assert s.master.handles == [] && Queue(s.master.wire.down, 0) == [NewConn(0, 0)];
    Next(es, CloseServer(0));
    es := es + [CloseServer(0)];
    assert Queue(After(es).s.up, 0) == [] + [Close] == [Close];
    Next(es, MasterReads(0));
    es := es + [MasterReads(0)];
  }

  /** Such a run: the worker turns the connection down, and nobody is left to take it. */
  lemma StrandedRun() returns (es: seq<Event>)
    ensures After(es).Reached? && Stranded(After(es).s, 0)
  {
    es := ClosedInBetween();
    Next(es, WorkerReads(0));
    es := es + [WorkerReads(0)];
    assert Queue(After(es).s.up, 0) == [] + [Ack(0, false)] == [Ack(0, false)];
    Next(es, MasterReads(0));
    es := es + [MasterReads(0)];
  }

  /** Another one: the worker dies before it reads the offer. */
  lemma LostRun() returns (es: seq<Event>)
    ensures After(es).Reached? && Lost(After(es).s, 0) && !TornDown(After(es[..|es| - 1]).s)
  {
    es := Registered();
    Next(es, Connect);
    es := es + [Connect];
    var s := After(es).s;
    assert [] + [0] == [0] && [0][1..] == [];
    assert s.master.wire.callbacks[0] == Pending(0, 0) && OfferedTo(s, 0, 0);
    Next(es, Die(0));
    assert OfferedTo(Step(s, Die(0)).value, 0, 0);
    assert (es + [Die(0)])[..|es|] == es;
    es := es + [Die(0)];
  }
}
