/**
 When the assertions of `connectionListener` hold, lib/_http_server.js:401: exactly which
 step fails, a condition on the events under which none does, and a run in which one does.
 */
module HttpAssertions {
  import opened Prelude
  import opened HttpOutgoing
  import opened HttpPipeline

  // ---------------------------------------------------------------- exactly when one fails

  /** The listener of 'finish' fails if and only if another request is the first unanswered one. */
  lemma FinishFails(c: Conn, k: nat)
    requires Common(c) && c.sock.status != Open && k < |c.msgs| && c.msgs[k].finished && c.current == Some(k)
    ensures OnFinish(c, k) == None <==> c.incoming != [] && c.incoming[0] != k
  {
    if c.incoming == [] || c.incoming[0] == k {
      var c1 := Detached(c, k);
      LateDetach(c, k);
      if k !in c.last && c.outgoing != [] {
        LateHead(c1.(outgoing := c.outgoing[1..]), c.outgoing[0]);
      }
    }
  }

  /** The next response keeps its output when the socket cannot be written to, so it does
      not finish. */
  lemma LateHead(c: Conn, k: nat)
    requires Sane(c) && AllOk(c) && c.sock.status != Open && k < |c.msgs| && c.current == None && Waiting(c.msgs[k])
    ensures Assign(c, k).Some?
  {
    assert MessageOk(c.msgs[k], k, c.current, c.done);
  }

  /** Nothing of this can be buffered: the header is sent with the first text, and dropped
      with it if the socket is destroyed. */
  predicate Dropped(headerSent: bool, status: Status, d: Data) {
    if headerSent then status == Destroyed || Length(d) == 0 else status == Destroyed && d.Str?
  }

  lemma UnitsPlus(a: Text, b: Text)
    requires a != []
    ensures Units(a + b) > 0
  {}

  lemma SendLate(m: Message, s: Sock, d: Data)
    requires m.attached && s.status != Open && m.header != []
    ensures var (m', s') := Send(m, s, d);
      && s' == s && m'.attached && m'.headerSent && m'.header == m.header
      && m'.hasBody == m.hasBody && m'.chunked == m.chunked
      && (m'.output == [] <==> m.output == [] && Dropped(m.headerSent, s.status, d))
  {
    if d.Str? {
      UnitsPlus(m.header, d.text);
    }
  }

  lemma {:induction false} SendAllLate(m: Message, s: Sock, ds: seq<Data>)
    requires m.attached && s.status != Open && m.headerSent && m.header != []
    ensures var (m', s') := SendAll(m, s, ds);
      && s' == s && m'.attached && m'.headerSent && m'.header == m.header
      && m'.hasBody == m.hasBody && m'.chunked == m.chunked
      && (m'.output == [] <==> m.output == [] && forall i :: 0 <= i < |ds| ==> Dropped(true, s.status, ds[i]))
    decreases |ds|
  {
    if ds != [] {
      SendLate(m, s, ds[0]);
      SendAllLate(Send(m, s, ds[0]).0, s, ds[1..]);
      assert forall i :: 0 < i < |ds| ==> ds[i] == ds[1..][i - 1];
    }
  }

  /** The data of `write` leaves nothing in the output of a message whose socket is not open. */
  predicate WriteDropped(m: Message, status: Status, d: Data) {
    !m.hasBody || Length(d) == 0 || (status == Destroyed && (m.headerSent || m.chunked || d.Str?))
  }

  lemma WriteLate(m: Message, s: Sock, d: Data)
    requires m.attached && s.status != Open && m.header != []
    ensures var (m', s') := HttpOutgoing.Write(m, s, d);
      && s' == s && m'.attached && m'.header == m.header && m'.chunked == m.chunked
      && (m'.headerSent <==> m.headerSent || (m.hasBody && Length(d) > 0))
      && (m'.output == [] <==> m.output == [] && WriteDropped(m, s.status, d))
  {
    if m.hasBody && Length(d) > 0 {
      var ds := Pieces(m.chunked, d);
      SendLate(m, s, ds[0]);
      SendAllLate(Send(m, s, ds[0]).0, s, ds[1..]);
      FirstPiece(m.chunked, d);
    }
  }

  lemma FirstPiece(chunked: bool, d: Data)
    requires Length(d) > 0
    ensures var ds := Pieces(chunked, d);
      ds != [] && Length(ds[0]) > 0 && (ds[0].Str? <==> chunked || d.Str?)
  {}

  /** `end` leaves nothing in the output of a message that has the socket, which is not open:
      what is left to say is dropped because the socket is destroyed, or there is nothing. */
  predicate EndDropped(m: Message, status: Status, final: Option<Data>) {
    && m.output == []
    && (final.Some? ==> WriteDropped(m, status, final.value))
    && (status == Destroyed || (m.headerSent && !m.chunked))
  }

  lemma EndLate(m: Message, s: Sock, final: Option<Data>)
    requires m.attached && s.status != Open && m.header != []
    ensures var (m', s') := EndOutput(m, s, final);
      s' == s && m'.attached && m'.finished && (m'.output == [] <==> EndDropped(m, s.status, final))
  {
    var (m1, s1) := match final case Some(d) => HttpOutgoing.Write(m, s, d) case None => (m, s);
    if final.Some? {
      WriteLate(m, s, final.value);
    }
    SendLate(m1, s1, LastPiece(m1));
    LastPieceLength(m1);
  }

  lemma LastPieceLength(m: Message)
    ensures LastPiece(m).Str? && (Length(LastPiece(m)) == 0 <==> !m.chunked)
  {}

  /** The guard: the response that has the socket, which is not open, is ended, nothing of
      it can be buffered, and another request is the first unanswered one. */
  predicate Fails(c: Conn, e: Event)
    requires Allowed(c, e)
  {
    && e.EndOf? && c.sock.status != Open && c.current == Some(e.k)
    && !c.msgs[e.k].finished && EndDropped(c.msgs[e.k], c.sock.status, e.final)
    && c.incoming != [] && c.incoming[0] != e.k
  }

  lemma EndFails(c: Conn, k: nat, final: Option<Data>)
    requires Inv(c) && Allowed(c, EndOf(k, final)) && c.sock.status != Open && c.msgs[k].attached && !c.msgs[k].finished
    ensures OnEndOf(c, k, final) == None <==> Fails(c, EndOf(k, final))
  {
    var m := c.msgs[k];
    assert MessageOk(m, k, c.current, c.done);
    EndLate(m, c.sock, final);
    EndOnly(m, c.sock, final);
    UpdateCommon(c, k, EndOutput(m, c.sock, final).0);
    if EndDropped(m, c.sock.status, final) {
      FinishFails(Ended(c, k, final), k);
    }
  }

  /** A step fails one of the source's assertions if and only if the guard holds. */
  lemma StepFails(c: Conn, e: Event)
    requires Inv(c) && Allowed(c, e)
    ensures Step(c, e) == None <==> Fails(c, e)
  {
    StepKeeps(c, e);
    if e.EndOf? {
      assert MessageOk(c.msgs[e.k], e.k, c.current, c.done);
      if c.sock.status != Open && c.msgs[e.k].attached && !c.msgs[e.k].finished {
        EndFails(c, e.k, e.final);
      }
    }
  }

  /** Event number n was reached, and fails. */
  predicate FailsAt(es: seq<Event>, n: nat)
    requires n < |es|
  {
    var r := After(es[..n]);
    r.Some? && Allowed(r.value, es[n]) && Fails(r.value, es[n])
  }

  lemma Later(es: seq<Event>, e: Event)
    requires After(es).Some?
    ensures var c := After(es).value; After(es + [e]) == if Allowed(c, e) then Step(c, e) else Some(c)
  {
    assert (es + [e])[..|es|] == es;
  }

  lemma NeverAgain(es: seq<Event>, e: Event)
    requires After(es) == None
    ensures After(es + [e]) == None
  {
    assert (es + [e])[..|es|] == es;
  }

  lemma FailsAtEnd(es: seq<Event>, e: Event)
    ensures var r := After(es);
      FailsAt(es + [e], |es|) <==> r.Some? && Allowed(r.value, e) && Fails(r.value, e)
  {
    assert (es + [e])[..|es|] == es;
  }

  lemma LastFails(es: seq<Event>, e: Event)
    ensures After(es + [e]) == None <==> After(es) == None || FailsAt(es + [e], |es|)
  {
    FailsAtEnd(es, e);
    if After(es) == None {
      NeverAgain(es, e);
    } else {
      Later(es, e);
      if Allowed(After(es).value, e) {
        StepFails(After(es).value, e);
      }
    }
  }

  lemma EarlierFails(es: seq<Event>, e: Event, n: nat)
    requires n < |es|
    ensures FailsAt(es + [e], n) == FailsAt(es, n)
  {
    assert (es + [e])[..n] == es[..n];
  }

  predicate SomeFails(es: seq<Event>) {
    exists n :: 0 <= n < |es| && FailsAt(es, n)
  }

  lemma SomeSnoc(es: seq<Event>, e: Event)
    ensures SomeFails(es + [e]) <==> SomeFails(es) || FailsAt(es + [e], |es|)
  {
    forall n | 0 <= n < |es| ensures FailsAt(es + [e], n) == FailsAt(es, n) {
      EarlierFails(es, e, n);
    }
    if SomeFails(es) {
      var n :| 0 <= n < |es| && FailsAt(es, n);
      assert FailsAt(es + [e], n);
    }
  }

  /** A run comes to an end if and only if one of its events meets the guard. */
  lemma {:induction false} RunFails(es: seq<Event>)
    ensures After(es) == None <==> SomeFails(es)
  {
    if es != [] {
      var es', e := es[..|es| - 1], es[|es| - 1];
      assert es == es' + [e];
      RunFails(es');
      LastFails(es', e);
      SomeSnoc(es', e);
    }
  }

  // ---------------------------------------------------------------- runs in which none fails

  /** The unanswered requests are those of the current response and the ones behind it,
      unless they were all given up when the client ended. */
  predicate InOrder(c: Conn) {
    || (c.incoming == [] && c.ended)
    || (c.current == None && c.incoming == c.outgoing)
    || (c.incoming != [] && c.current == Some(c.incoming[0]) && c.outgoing == c.incoming[1..])
  }

  lemma {:induction false} FinishInOrder(c: Conn, k: nat)
    requires Sane(c) && InOrder(c) && c.current == Some(k)
    ensures OnFinish(c, k).Some? && InOrder(OnFinish(c, k).value)
    decreases |c.outgoing|, 0
  {
    var c1 := Detached(c, k);
    if k in c.last {
    } else if c.outgoing == [] {
    } else {
      AssignInOrder(c1.(outgoing := c.outgoing[1..]), c.outgoing[0]);
    }
  }

  lemma {:induction false} AssignInOrder(c: Conn, k: nat)
    requires Sane(c) && k < |c.msgs| && c.current == None && InOrder(c.(current := Some(k)))
    ensures Assign(c, k).Some? && InOrder(Assign(c, k).value)
    decreases |c.outgoing|, 1
  {
    var c1 := Attached(c, k);
    if c1.msgs[k].output == [] && c1.msgs[k].finished {
      FinishInOrder(c1, k);
    }
  }

  lemma RequestInOrder(c: Conn, header: Text, chunked: bool, hasBody: bool, trailer: Text)
    requires Sane(c) && InOrder(c) && !c.ended && (c.current.Some? || c.incoming == [])
    ensures OnRequest(c, header, chunked, hasBody, trailer).Some?
    ensures InOrder(OnRequest(c, header, chunked, hasBody, trailer).value)
  {
    var k, m := |c.msgs|, NewMessage(header, chunked, hasBody, trailer);
    if c.current == None {
      AssignInOrder(Listed(c, m), k);
    } else {
      assert (c.incoming + [k])[1..] == c.incoming[1..] + [k];
    }
  }

  /** A request arrives while a response has the socket or no request is unanswered. */
  predicate Timely(c: Conn, e: Event) {
    e.Request? ==> c.current.Some? || c.incoming == []
  }

  lemma StepInOrder(c: Conn, e: Event)
    requires Inv(c) && InOrder(c) && Allowed(c, e) && Timely(c, e)
    ensures Step(c, e).Some? && InOrder(Step(c, e).value)
  {
    match e {
      case Request(header, chunked, hasBody, trailer) => RequestInOrder(c, header, chunked, hasBody, trailer);
      case EndOf(k, final) =>
        assert MessageOk(c.msgs[k], k, c.current, c.done);
        EndKeeps(c, k, final);
        EndOnly(c.msgs[k], c.sock, final);
        var c1 := Ended(c, k, final);
        if !c.msgs[k].finished && c1.msgs[k].output == [] && c.msgs[k].attached {
          FinishInOrder(c1, k);
        }
      case _ =>
    }
  }

  predicate AllTimely(es: seq<Event>) {
    es == [] ||
    (AllTimely(es[..|es| - 1]) && (After(es[..|es| - 1]).Some? ==> Timely(After(es[..|es| - 1]).value, es[|es| - 1])))
  }

  /** Then no assertion fails, in any run, also after the socket was shut or destroyed. */
  lemma {:induction false} TimelyRunsAreSafe(es: seq<Event>)
    requires AllTimely(es)
    ensures After(es).Some? && InOrder(After(es).value)
  {
    if es != [] {
      TimelyRunsAreSafe(es[..|es| - 1]);
      var c := After(es[..|es| - 1]).value;
      if Allowed(c, es[|es| - 1]) {
        StepInOrder(c, es[|es| - 1]);
      }
    }
  }

  const REQUEST: Event := Request([72], false, true, [])

  lemma RequestBehind(c: Conn)
    requires Sane(c) && Allowed(c, REQUEST) && c.current.Some?
    ensures Step(c, REQUEST) == Some(Listed(c, NewMessage([72], false, true, [])).(outgoing := c.outgoing + [|c.msgs|]))
  {}

  lemma RequestFirst(c: Conn)
    requires Sane(c) && Allowed(c, REQUEST) && c.current == None
    ensures Step(c, REQUEST) == Some(Attached(Listed(c, NewMessage([72], false, true, [])), |c.msgs|))
  {}

  lemma OneRequest()
    ensures After([REQUEST]) == Some(Attached(Listed(NewConn(), NewMessage([72], false, true, [])), 0))
  {
    assert [] + [REQUEST] == [REQUEST];
    Later([], REQUEST);
    RequestFirst(NewConn());
  }

  lemma TwoRequests() returns (es: seq<Event>)
    ensures After(es).Some? && After(es).value.incoming == [0, 1] && After(es).value.outgoing == [1]
    ensures var c := After(es).value; c.current == Some(0) && |c.msgs| == 2 && c.sock.status == Open && !c.ended
    ensures After(es).value.done == 0
  {
    OneRequest();
    var c := After([REQUEST]).value;
    assert c.incoming == [0] && c.outgoing == [] && |c.msgs| == 1 && c.current == Some(0);
    Later([REQUEST], REQUEST);
    RequestBehind(c);
    es := [REQUEST] + [REQUEST];
  }

  /** The end of the response that has the open socket. */
  lemma EndOfCurrent(c: Conn, k: nat)
    requires Inv(c) && c.sock.status == Open && c.current == Some(k) && k in c.last && c.incoming == [k] + c.outgoing
    ensures Step(c, EndOf(k, None)).Some?
    ensures var r := Step(c, EndOf(k, None)).value;
      && r.current == None && r.incoming == c.outgoing && r.outgoing == c.outgoing && |r.msgs| == |c.msgs|
      && r.sock.status == Shut && r.ended == c.ended
  {
    assert MessageOk(c.msgs[k], k, c.current, c.done);
    FlowingEnd(Settled(c), c.msgs[k], c.sock, None);
    assert c.incoming[1..] == c.outgoing;
  }

  lemma LastAnswered() returns (es: seq<Event>)
    ensures After(es).Some? && After(es).value.incoming == [1] && After(es).value.outgoing == [1]
    ensures var c := After(es).value; c.current == None && |c.msgs| == 2 && c.sock.status == Shut && !c.ended
  {
    es := TwoRequests();
    Later(es, SetLast(0));
    es := es + [SetLast(0)];
    EndOfCurrent(After(es).value, 0);
    Later(es, EndOf(0, None));
    es := es + [EndOf(0, None)];
  }

  /** The first end of a response whose socket is destroyed. */
  lemma EndOfDestroyed(c: Conn, k: nat)
    requires Inv(c) && c.sock.status == Destroyed && c.current == Some(k)
    requires c.msgs[k].output == [] && !c.msgs[k].finished && c.incoming != [] && c.incoming[0] != k
    ensures Step(c, EndOf(k, None)) == None
  {
    assert MessageOk(c.msgs[k], k, c.current, c.done);
    assert Send(c.msgs[k], c.sock, LastPiece(c.msgs[k])).0.output == [];
  }

  /** Otherwise one may: two requests, the answer to the first says it is the last, a third
      request arrives and gets the socket before the second, and is answered when the socket
      is destroyed but its 'close' is still to come. */
  lemma LateRequestFails() returns (es: seq<Event>)
    ensures After(es) == None
  {
    es := LastAnswered();
    Later(es, REQUEST);
    es := es + [REQUEST];
    Later(es, Destroy);
    es := es + [Destroy];
    EndOfDestroyed(After(es).value, 2);
    Later(es, EndOf(2, None));
    es := es + [EndOf(2, None)];
  }
}
