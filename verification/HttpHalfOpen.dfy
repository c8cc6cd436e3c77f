/**
 A client that ends its side and still waits for the answers: with `allowHalfOpen` every response it is
 owed is sent, and then the socket is shut.
 */
module HttpHalfOpen {
  import opened Prelude
  import opened Utf8
  import opened HttpOutgoing
  import opened HttpPipeline

  /** Nobody else shuts or destroys the socket. */
  predicate Polite(e: Event) {
    e.Request? || e.WriteTo? || e.EndOf? || (e.OnEnd? && e.allowHalfOpen)
  }

  predicate AllPolite(es: seq<Event>) {
    forall i :: 0 <= i < |es| ==> Polite(es[i])
  }

  /** Once the client has ended the last response is marked, and no other one. */
  predicate Marked(c: Conn) {
    if c.ended then |c.msgs| > 0 && c.last == {|c.msgs| - 1} else c.last == {}
  }

  /** The socket is shut because everything was sent. */
  predicate AllSent(c: Conn) {
    && c.ended && c.sock.status == Shut && c.done == |c.msgs| && c.current == None && c.outgoing == []
    && c.sock.bytes == Flatten(Streams(c.msgs))
  }

  /** Either the socket is open, with a response in turn if the client has ended; or all was sent. */
  predicate Owed(c: Conn) {
    if c.sock.status == Open then Marked(c) && (c.ended ==> c.done < |c.msgs|) else AllSent(c)
  }

  /** What emitting 'finish' does not change. */
  predicate SameEnd(c: Conn, r: Conn) {
    r.ended == c.ended && r.last == c.last && |r.msgs| == |c.msgs|
  }

  lemma LastSent(c: Conn)
    requires Complete(c) && Marked(c) && c.done in c.last
    ensures OnFinish(c, c.done).Some? && AllSent(OnFinish(c, c.done).value)
    ensures SameEnd(c, OnFinish(c, c.done).value)
  {
    RangeTail(c.done, |c.msgs|);
    DetachOpen(c);
    var c1 := Detached(c, c.done);
    assert Streams(c1.msgs)[..c1.done] == Streams(c1.msgs);
  }

  lemma {:induction false} FinishOwed(c: Conn)
    requires Complete(c) && Marked(c)
    ensures OnFinish(c, c.done).Some? && Owed(OnFinish(c, c.done).value) && SameEnd(c, OnFinish(c, c.done).value)
    decreases |c.outgoing|, 0
  {
    if c.done in c.last {
      LastSent(c);
    } else {
      RangeTail(c.done, |c.msgs|);
      if c.outgoing != [] {
        DetachOpen(c);
        AssignOwed(Detached(c, c.done).(outgoing := c.outgoing[1..]));
      } else {
        NothingBehind(c);
      }
    }
  }

  /** The response that has none behind it is the last one. */
  lemma NothingBehind(c: Conn)
    requires Complete(c) && c.outgoing == []
    ensures c.done == |c.msgs| - 1
  {
    assert |Range(c.done + 1, |c.msgs|)| == |c.msgs| - c.done - 1;
  }

  lemma {:induction false} AssignOwed(c: Conn)
    requires Between(c) && Marked(c)
    ensures Assign(c, c.done).Some? && Owed(Assign(c, c.done).value) && SameEnd(c, Assign(c, c.done).value)
    decreases |c.outgoing|, 1
  {
    AttachOpen(c);
    if Attached(c, c.done).msgs[c.done].finished {
      FinishOwed(Attached(c, c.done));
    }
  }

  // ---------------------------------------------------------------- every step

  lemma RequestOwed(c: Conn, header: Text, chunked: bool, hasBody: bool, trailer: Text)
    requires Inv(c) && Owed(c) && header != [] && !c.ended && c.sock.status == Open
    ensures var r := OnRequest(c, header, chunked, hasBody, trailer); r.Some? && Owed(r.value)
  {
    var m := NewMessage(header, chunked, hasBody, trailer);
    if c.current == None {
      ListedFirst(c, m);
      AssignOwed(Listed(c, m));
    }
  }

  lemma WriteOwed(c: Conn, k: nat, d: Data)
    requires Inv(c) && Owed(c) && c.done <= k < |c.msgs| && Accepted(c.msgs[k].chunked, d)
    ensures Owed(OnWrite(c, k, d))
  {
    WriteOnly(c.msgs[k], c.sock, d);
  }

  lemma EndOwed(c: Conn, k: nat, final: Option<Data>)
    requires Inv(c) && Owed(c) && k < |c.msgs| && (final.Some? ==> Accepted(c.msgs[k].chunked, final.value))
    ensures OnEndOf(c, k, final).Some? && Owed(OnEndOf(c, k, final).value)
  {
    assert MessageOk(c.msgs[k], k, c.current, c.done);
    if !c.msgs[k].finished {
      var (m, s) := EndOutput(c.msgs[k], c.sock, final);
      EndOnly(c.msgs[k], c.sock, final);
      if k == c.done {
        FlowingEnd(Settled(c), c.msgs[k], c.sock, final);
        UpdateFlowing(c, m, s);
        FinishOwed(Updated(c, k, m, s));
      } else {
        WaitingEnd(c.msgs[k], c.sock, final);
      }
    }
  }

  lemma LastOf(a: nat, b: nat)
    requires a < b
    ensures Range(a, b)[b - a - 1] == b - 1
  {}

  /** The client ends: the last response that waits is marked, or the one in turn, or there is none. */
  lemma ClientEndOwed(c: Conn)
    requires Inv(c) && Owed(c) && !c.ended
    ensures Owed(OnSocketEnd(c, true))
  {
    if c.outgoing != [] {
      LastOf(c.done + 1, |c.msgs|);
      assert {} + {|c.msgs| - 1} == {|c.msgs| - 1};
    } else if c.current.Some? {
      assert |Range(c.done + 1, |c.msgs|)| == |c.msgs| - c.done - 1;
      assert {} + {c.done} == {c.done};
    } else {
      assert Streams(c.msgs)[..c.done] == Streams(c.msgs);
      assert Settled(c) + [] == Settled(c);
    }
  }

  lemma StepOwed(c: Conn, e: Event)
    requires Inv(c) && Owed(c) && Allowed(c, e) && Polite(e)
    ensures Step(c, e).Some? && Owed(Step(c, e).value)
  {
    match e {
      case Request(header, chunked, hasBody, trailer) => RequestOwed(c, header, chunked, hasBody, trailer);
      case WriteTo(k, d) => WriteOwed(c, k, d);
      case EndOf(k, final) => EndOwed(c, k, final);
      case OnEnd(_) => ClientEndOwed(c);
    }
  }

  lemma {:induction false} RunOwed(es: seq<Event>)
    requires AllPolite(es)
    ensures After(es).Some? && Owed(After(es).value)
  {
    if es != [] {
      var before, e := es[..|es| - 1], es[|es| - 1];
      RunOwed(before);
      if Allowed(After(before).value, e) {
        StepOwed(After(before).value, e);
      }
    }
  }

  /**
   For every interleaving of the handlers with a client that may end its side: the socket is shut only when
   every response was sent; and once the client has ended and every response was ended too, the socket has
   all of them, in the order of the requests, and is shut.
   */
  lemma EveryoneIsAnswered(es: seq<Event>)
    requires AllPolite(es)
    ensures After(es).Some?
    ensures var c := After(es).value;
      && (c.sock.status != Open ==> c.done == |c.msgs| && c.sock.bytes == Flatten(Streams(c.msgs)))
      && (c.ended && (forall k :: 0 <= k < |c.msgs| ==> c.msgs[k].finished) ==>
            c.sock.status == Shut && c.sock.bytes == Flatten(Streams(c.msgs)))
  {
    RunOwed(es);
    var c := After(es).value;
    if c.sock.status == Open && c.ended {
      assert Flowing(c.msgs[c.done]);
    }
  }

  // ---------------------------------------------------------------- the client is gone

  /** The requests that were not answered are given up, and the socket takes nothing more. */
  predicate GivenUp(c: Conn) {
    c.ended && c.incoming == [] && c.sock.status != Open
  }

  /** So it is when the socket closes, and when the client ends its side and `allowHalfOpen` is off. */
  lemma GivesUp(c: Conn)
    requires Sane(c)
    ensures GivenUp(Step(c, OnClose).value)
    ensures !c.ended ==> GivenUp(Step(c, OnEnd(false)).value)
  {}

  /** From then on 'finish' fails no assertion about requests: only one of a response without the socket fails. */
  lemma {:induction false} FinishGivenUp(c: Conn, k: nat)
    requires Sane(c) && GivenUp(c) && k < |c.msgs|
    ensures OnFinish(c, k).Some? <==> c.current == Some(k)
    ensures OnFinish(c, k).Some? ==> GivenUp(OnFinish(c, k).value)
    decreases |c.outgoing|, 0
  {
    if c.current == Some(k) && k !in c.last && c.outgoing != [] {
      AssignGivenUp(Detached(c, k).(outgoing := c.outgoing[1..]), c.outgoing[0]);
    }
  }

  lemma {:induction false} AssignGivenUp(c: Conn, k: nat)
    requires Sane(c) && GivenUp(c) && k < |c.msgs| && c.current == None
    ensures Assign(c, k).Some? && GivenUp(Assign(c, k).value)
    decreases |c.outgoing|, 1
  {
    if Attached(c, k).msgs[k].output == [] && Attached(c, k).msgs[k].finished {
      FinishGivenUp(Attached(c, k), k);
    }
  }

  lemma {:induction false} SendAllKeeps(m: Message, s: Sock, ds: seq<Data>)
    ensures SendAll(m, s, ds).1.status == s.status
    decreases |ds|
  {
    if ds != [] {
      SendAllKeeps(Send(m, s, ds[0]).0, Send(m, s, ds[0]).1, ds[1..]);
    }
  }

  lemma WriteStatus(m: Message, s: Sock, d: Data)
    ensures HttpOutgoing.Write(m, s, d).1.status == s.status
  {
    SendAllKeeps(m, s, Pieces(m.chunked, d));
  }

  lemma EndStatus(m: Message, s: Sock, final: Option<Data>)
    ensures EndOutput(m, s, final).1.status == s.status
  {
    if final.Some? {
      WriteStatus(m, s, final.value);
    }
  }

  lemma StepGivenUp(c: Conn, e: Event)
    requires Sane(c) && GivenUp(c) && Allowed(c, e)
    ensures Step(c, e).Some? ==> GivenUp(Step(c, e).value)
  {
    match e {
      case WriteTo(k, d) => WriteStatus(c.msgs[k], c.sock, d);
      case EndOf(k, final) =>
        if !c.msgs[k].finished {
          EndStatus(c.msgs[k], c.sock, final);
          FinishGivenUp(Ended(c, k, final), k);
        }
      case _ =>
    }
  }

  /** On every run: once the socket was closed, whatever the handlers still do, no request is pending. */
  lemma {:induction false} ClosedForGood(es: seq<Event>, i: nat)
    requires i < |es| && es[i].OnClose? && After(es).Some?
    ensures GivenUp(After(es).value)
  {
    var before, e := es[..|es| - 1], es[|es| - 1];
    if i < |es| - 1 {
      ClosedForGood(before, i);
    }
    var c := After(before).value;
    if e.OnClose? {
      GivesUp(c);
    } else if Allowed(c, e) {
      StepGivenUp(c, e);
    }
  }
}
