/**
 Who is served first: connections are offered in the order in which they joined the line, and of the
 workers that are ready the one that has been so for longest is called.
 */
module ClusterOrder {
  import opened Prelude
  import opened Cluster
  import opened ClusterSystem
  import L = ClusterLimits

  /** The connections that were offered, in order. */
  function Conns(offered: seq<Pending>): seq<Conn> {
    seq(|offered|, i requires 0 <= i < |offered| => offered[i].conn)
  }

  /** A plain queue: a worker joins at its end and is called from its front. None if another one was. */
  function ReadyLine(turns: seq<Turn>): Option<seq<Worker>> {
    if turns == [] then Some([])
    else
      match ReadyLine(turns[..|turns| - 1])
      case None => None
      case Some(line) =>
        match turns[|turns| - 1]
        case Readied(w) => Some(line + [w])
        case Called(w) => if line != [] && line[0] == w then Some(line[1..]) else None
        case Gone(w) => Some(Without(line, w))
  }

  /** The ready queue is that plain queue. The offers are numbered, and are followed by what waits. */
  predicate LineOk(m: Master) {
    && ReadyLine(m.turns) == Some(m.free)
    && (m.live || m.all == {})
    && |m.wire.offered| == m.wire.nextSeq
    && (forall k :: k in m.wire.callbacks ==> k < m.wire.nextSeq && m.wire.callbacks[k] == m.wire.offered[k])
    && (m.live ==> m.joined == Conns(m.wire.offered) + m.handles)
    && Conns(m.wire.offered) <= m.joined
  }

  lemma TurnTaken(turns: seq<Turn>, t: Turn)
    requires ReadyLine(turns).Some?
    ensures var line := ReadyLine(turns).value;
      ReadyLine(turns + [t]) ==
        match t
        case Readied(w) => Some(line + [w])
        case Called(w) => if line != [] && line[0] == w then Some(line[1..]) else None
        case Gone(w) => Some(Without(line, w))
  {
    assert (turns + [t])[..|turns|] == turns;
  }

  lemma OfferTaken(offered: seq<Pending>, p: Pending, handles: seq<Conn>)
    requires handles != [] && p.conn == handles[0]
    ensures Conns(offered + [p]) + handles[1..] == Conns(offered) + handles
    ensures Conns(offered + [p]) == Conns(offered) + [p.conn]
  {
    assert handles == [handles[0]] + handles[1..];
  }

  lemma HandoffLine(m: Master, w: Worker)
    requires LineOk(m)
    ensures LineOk(Handoff(m, w))
  {
    if w in m.all {
      if m.handles == [] {
        TurnTaken(m.turns, Readied(w));
      } else {
        OfferTaken(m.wire.offered, Pending(w, m.handles[0]), m.handles);
      }
    }
  }

  lemma JoinLine(offered: seq<Conn>, handles: seq<Conn>, c: Conn)
    ensures offered + (handles + [c]) == offered + handles + [c]
  {}

  lemma DistributeLine(m: Master, c: Conn)
    requires LineOk(m)
    ensures LineOk(Distribute(m, c))
  {
    JoinLine(Conns(m.wire.offered), m.handles, c);
    if m.free != [] {
      TurnTaken(m.turns, Called(m.free[0]));
      HandoffLine(m.(handles := m.handles + [c], joined := m.joined + [c], free := m.free[1..],
                     turns := m.turns + [Called(m.free[0])]), m.free[0]);
    }
  }

  lemma AddLine(m: Master, w: Worker)
    requires LineOk(m) && m.live
    ensures LineOk(Add(m, w))
  {
    HandoffLine(m.(all := m.all + {w}, wire := Post(m.wire, w, Listening)), w);
  }

  lemma RemoveLine(m: Master, w: Worker)
    requires LineOk(m)
    ensures LineOk(Remove(m, w))
  {
    if w in m.all {
      TurnTaken(m.turns, Gone(w));
    }
  }

  lemma ReplyLine(m: Master, ack: nat, accepted: bool)
    requires LineOk(m) && ack in m.wire.callbacks
    ensures LineOk(OnReply(m, ack, accepted))
  {
    var p := m.wire.callbacks[ack];
    var m1 := m.(wire := m.wire.(callbacks := m.wire.callbacks - {ack}));
    if accepted {
      HandoffLine(m1, p.worker);
    } else {
      DistributeLine(m1, p.conn);
      HandoffLine(Distribute(m1, p.conn), p.worker);
    }
  }

  lemma StepLine(s: System, e: Event)
    requires LineOk(s.master) && Possible(s, e)
    ensures Step(s, e).Some? ==> LineOk(Step(s, e).value.master)
  {
    match e {
      case Connect => DistributeLine(s.master, s.arrived);
      case MasterReads(w) =>
        match Queue(s.up, w)[0] {
          case Query => AddLine(s.master, w);
          case Close => RemoveLine(s.master, w);
          case Ack(ack, accepted) =>
            if ack in s.master.wire.callbacks {
              ReplyLine(s.master, ack, accepted);
            }
        }
      case Die(w) => RemoveLine(s.master, w);
      case _ =>
    }
  }

  lemma {:induction false} RunLine(es: seq<Event>)
    ensures L.AfterPossible(es).Reached? ==> LineOk(L.AfterPossible(es).s.master)
  {
    if es != [] {
      RunLine(es[..|es| - 1]);
      match L.AfterPossible(es[..|es| - 1])
      case Reached(s) =>
        if Possible(s, es[|es| - 1]) {
          StepLine(s, es[|es| - 1]);
        }
      case _ =>
    }
  }

  // ---------------------------------------------------------------- connections

  /** The reply that is read turns a connection down, which then joins the line again. */
  predicate Refuses(s: System, e: Event) {
    e.MasterReads? && Queue(s.up, e.w) != [] && Queue(s.up, e.w)[0].Ack? && !Queue(s.up, e.w)[0].accepted
  }

  predicate Refused(es: seq<Event>) {
    es != [] &&
    var before := es[..|es| - 1];
    Refused(before) || (L.AfterPossible(before).Reached? && Refuses(L.AfterPossible(before).s, es[|es| - 1]))
  }

  /** The numbers below n. */
  function UpTo(n: nat): seq<Conn> {
    seq(n, i => i)
  }

  /** What joins the line: a new connection, or one that was turned down. */
  lemma StepJoined(s: System, e: Event)
    requires Possible(s, e) && Step(s, e).Some?
    ensures var r := Step(s, e).value;
      && (e.Connect? ==> r.master.joined == s.master.joined + [s.arrived] && r.arrived == s.arrived + 1)
      && (!e.Connect? ==> r.arrived == s.arrived)
      && (!e.Connect? && !Refuses(s, e) ==> r.master.joined == s.master.joined)
      && (Refuses(s, e) ==>
            r.master.joined == s.master.joined + [s.master.wire.callbacks[Queue(s.up, e.w)[0].ack].conn])
  {}

  lemma {:induction false} JoinedInOrder(es: seq<Event>)
    requires L.AfterPossible(es).Reached? && !Refused(es)
    ensures var s := L.AfterPossible(es).s; s.master.joined == UpTo(s.arrived)
  {
    if es != [] {
      var before := es[..|es| - 1];
      JoinedInOrder(before);
      StepJoined(L.AfterPossible(before).s, es[|es| - 1]);
    }
  }

  /**
   On every run: the connections that were offered, followed while the handle is open by those that wait,
   are the connections in the order in which they joined the line; and if none was turned down, that is
   the order of their arrival.
   */
  lemma FirstComeFirstServed(es: seq<Event>)
    requires L.AfterPossible(es).Reached?
    ensures var s := L.AfterPossible(es).s; var offered := Conns(s.master.wire.offered);
      && (s.master.live ==> offered + s.master.handles == s.master.joined)
      && offered <= s.master.joined
      && (forall k :: k in s.master.wire.callbacks ==>
            k < |offered| && s.master.wire.callbacks[k] == s.master.wire.offered[k])
      && (!Refused(es) ==> s.master.joined == UpTo(s.arrived) && forall k :: 0 <= k < |offered| ==> offered[k] == k)
  {
    RunLine(es);
    var s := L.AfterPossible(es).s;
    if !Refused(es) {
      JoinedInOrder(es);
      assert forall k :: 0 <= k < |s.master.wire.offered| ==> Conns(s.master.wire.offered)[k] == s.master.joined[k];
    }
  }

  // ---------------------------------------------------------------- workers

  function Ready(turns: seq<Turn>): seq<Worker> {
    if turns == [] then []
    else
      Ready(turns[..|turns| - 1]) + (match turns[|turns| - 1] case Readied(w) => [w] case _ => [])
  }

  function Calls(turns: seq<Turn>): seq<Worker> {
    if turns == [] then []
    else
      Calls(turns[..|turns| - 1]) + (match turns[|turns| - 1] case Called(w) => [w] case _ => [])
  }

  predicate NobodyGone(turns: seq<Turn>) {
    forall i :: 0 <= i < |turns| ==> !turns[i].Gone?
  }

  /** A plain queue is first in, first out. */
  lemma {:induction false} QueueOrder(turns: seq<Turn>)
    requires ReadyLine(turns).Some? && NobodyGone(turns)
    ensures Calls(turns) + ReadyLine(turns).value == Ready(turns)
  {
    if turns != [] {
      var before, t := turns[..|turns| - 1], turns[|turns| - 1];
      QueueOrder(before);
      var line := ReadyLine(before).value;
      match t {
        case Readied(w) => Assoc(Calls(before), line, [w]);
        case Called(w) => assert line == [w] + line[1..]; Assoc(Calls(before), [w], line[1..]);
        case Gone(w) =>
      }
    }
  }

  /** A worker that is called is the first of those that are ready, and takes the connection. */
  lemma CalledInTurn(m: Master, c: Conn)
    requires LineOk(m) && m.free != [] && m.handles == [] && m.free[0] in m.all
    ensures var r := Distribute(m, c);
      && r.turns == m.turns + [Called(m.free[0])] && r.free == m.free[1..]
      && r.wire.offered == m.wire.offered + [Pending(m.free[0], c)] && r.handles == []
  {
    assert ([] + [c])[1..] == [];
  }

  /**
   On every run: the ready queue is what a plain queue of the workers gives, each of which joins at its end
   and is called from its front; and as long as no worker is removed, those called and then those still
   ready are the workers in the order in which they became ready.
   */
  lemma LongestReadyFirst(es: seq<Event>)
    requires L.AfterPossible(es).Reached?
    ensures var m := L.AfterPossible(es).s.master;
      && ReadyLine(m.turns) == Some(m.free)
      && (NobodyGone(m.turns) ==> Calls(m.turns) + m.free == Ready(m.turns))
  {
    RunLine(es);
    var m := L.AfterPossible(es).s.master;
    if NobodyGone(m.turns) {
      QueueOrder(m.turns);
    }
  }
}
