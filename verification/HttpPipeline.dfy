/**
 The responses of one connection, as `connectionListener` of lib/_http_server.js lines them
 up: one response at a time has the socket, the others wait with their output buffered.
 */
module HttpPipeline {
  import opened Prelude
  import opened Utf8
  import opened HttpOutgoing

  /** Responses are known by their number, in the order of the requests. `done` counts those
      that emitted 'finish' while the socket was open. */
  datatype Conn = Conn(
    msgs: seq<Message>,
    last: set<nat>,
    incoming: seq<nat>,
    outgoing: seq<nat>,
    current: Option<nat>,
    sock: Sock,
    ended: bool,
    done: nat)

  function NewConn(): Conn {
    Conn([], {}, [], [], None, Sock([], Open), false, 0)
  }

  datatype Event =
    | Request(header: Text, chunked: bool, hasBody: bool, trailer: Text)
    | WriteTo(k: nat, d: Data)
    | EndOf(k: nat, final: Option<Data>)
    | SetLast(k: nat)
    | OnEnd(allowHalfOpen: bool)
    | Destroy
    | OnClose

  predicate Sane(c: Conn) {
    && (forall i :: 0 <= i < |c.outgoing| ==> c.outgoing[i] < |c.msgs|)
    && (c.current.Some? ==> c.current.value < |c.msgs|)
  }

  function Shutdown(s: Sock): Sock {
    if s.status == Open then s.(status := Shut) else s
  }

  /** The 'finish' listener of response k; None if one of its assertions fails. */
  function OnFinish(c: Conn, k: nat): (r: Option<Conn>)
    requires Sane(c) && k < |c.msgs|
    ensures r.Some? ==> Sane(r.value)
    decreases |c.outgoing|, 0
  {
    if (c.incoming != [] && c.incoming[0] != k) || c.current != Some(k) then None
    else
      var c1 := Detached(c, k);
      if k in c.last then Some(c1.(sock := Shutdown(c1.sock)))
      else if c.outgoing == [] then Some(c1)
      else Assign(c1.(outgoing := c.outgoing[1..]), c.outgoing[0])
  }

  /** `incoming.shift()` and `detachSocket`. */
  function Detached(c: Conn, k: nat): Conn
    requires k < |c.msgs|
  {
    c.(incoming := if c.incoming == [] then [] else c.incoming[1..],
       msgs := c.msgs[k := c.msgs[k].(attached := false)],
       current := None,
       done := if c.sock.status == Open then c.done + 1 else c.done)
  }

  /** The socket becomes that of response k, whose output goes out. */
  function Attached(c: Conn, k: nat): Conn
    requires k < |c.msgs|
  {
    var (m, s) := Flush(c.msgs[k].(attached := true), c.sock);
    c.(msgs := c.msgs[k := m], sock := s, current := Some(k))
  }

  /** `assignSocket` */
  function Assign(c: Conn, k: nat): (r: Option<Conn>)
    requires Sane(c) && k < |c.msgs|
    ensures r.Some? ==> Sane(r.value)
    decreases |c.outgoing|, 1
  {
    if c.current.Some? then None
    else
      var c1 := Attached(c, k);
      if c1.msgs[k].output == [] && c1.msgs[k].finished then OnFinish(c1, k) else Some(c1)
  }

  /** A new request is not answered, and has a new response. */
  function Listed(c: Conn, m: Message): Conn {
    c.(incoming := c.incoming + [|c.msgs|], msgs := c.msgs + [m])
  }

  function OnRequest(c: Conn, header: Text, chunked: bool, hasBody: bool, trailer: Text): Option<Conn>
    requires Sane(c)
  {
    var k := |c.msgs|;
    var c1 := Listed(c, NewMessage(header, chunked, hasBody, trailer));
    if c.current.Some? then Some(c1.(outgoing := c.outgoing + [k])) else Assign(c1, k)
  }

  function OnWrite(c: Conn, k: nat, d: Data): Conn
    requires k < |c.msgs|
  {
    var (m, s) := HttpOutgoing.Write(c.msgs[k], c.sock, d);
    c.(msgs := c.msgs[k := m], sock := s)
  }

  /** The output of `end`, which is made once. */
  function Ended(c: Conn, k: nat, final: Option<Data>): Conn
    requires k < |c.msgs|
  {
    var (m, s) := EndOutput(c.msgs[k], c.sock, final);
    c.(msgs := c.msgs[k := m], sock := s)
  }

  /** `end`. None if an assertion fails, or there is no connection to look at. */
  function OnEndOf(c: Conn, k: nat, final: Option<Data>): Option<Conn>
    requires Sane(c) && k < |c.msgs|
  {
    if c.msgs[k].finished then Some(c)
    else
      var c1 := Ended(c, k, final);
      if c1.msgs[k].output != [] then Some(c1)
      else if !c1.msgs[k].attached then None
      else OnFinish(c1, k)
  }

  function OnSocketEnd(c: Conn, allowHalfOpen: bool): Conn
    requires Sane(c)
  {
    var c1 := c.(ended := true);
    if !allowHalfOpen then c1.(incoming := [], sock := Shutdown(c.sock))
    else if c.outgoing != [] then c1.(last := c.last + {c.outgoing[|c.outgoing| - 1]})
    else if c.current.Some? then c1.(last := c.last + {c.current.value})
    else c1.(sock := Shutdown(c.sock))
  }

  function Step(c: Conn, e: Event): Option<Conn>
    requires Sane(c) && Allowed(c, e)
  {
    match e
    case Request(header, chunked, hasBody, trailer) => OnRequest(c, header, chunked, hasBody, trailer)
    case WriteTo(k, d) => Some(OnWrite(c, k, d))
    case EndOf(k, final) => OnEndOf(c, k, final)
    case SetLast(k) => Some(c.(last := c.last + {k}))
    case OnEnd(allowHalfOpen) => Some(OnSocketEnd(c, allowHalfOpen))
    case Destroy => Some(c.(sock := c.sock.(status := Destroyed)))
    case OnClose => Some(c.(incoming := [], ended := true, sock := c.sock.(status := Destroyed)))
  }

  /** Requests come from a socket that was not ended or destroyed; bodies are buffers and
      UTF-8 text, or text that a chunked response sends as UTF-8; nobody writes to a response after its 'finish'. */
  predicate Allowed(c: Conn, e: Event) {
    match e
    case Request(header, _, _, _) => header != [] && !c.ended && c.sock.status != Destroyed
    case WriteTo(k, d) => c.done <= k < |c.msgs| && Accepted(c.msgs[k].chunked, d)
    case EndOf(k, final) => k < |c.msgs| && (final.Some? ==> Accepted(c.msgs[k].chunked, final.value))
    case SetLast(k) => k < |c.msgs|
    case OnEnd(_) => !c.ended
    case Destroy => true
    case OnClose => true
  }

  // ---------------------------------------------------------------- the invariant

  function Streams(msgs: seq<Message>): seq<seq<Byte>> {
    seq(|msgs|, i requires 0 <= i < |msgs| => msgs[i].stream)
  }

  /** The numbers from `a` up to but not including `b`. */
  function Range(a: nat, b: nat): seq<nat>
    requires a <= b
  {
    seq(b - a, i requires 0 <= i < b - a => a + i)
  }

  /** What the done responses sent, and so far the next one. */
  function Due(c: Conn): seq<Byte>
    requires c.done <= |c.msgs|
  {
    Flatten(Streams(c.msgs)[..c.done]) + (if c.done < |c.msgs| then c.msgs[c.done].stream else [])
  }

  /** A response that has not had the socket: all it sent is in its output. */
  predicate Waiting(m: Message) {
    !m.attached && Fine(m, Sock([], Open)) && AllBytes(m.output) == m.stream
  }

  /** The response that has the socket, which is open. */
  predicate Flowing(m: Message) {
    m.attached && Fine(m, Sock([], Open)) && m.output == [] && !m.finished
  }

  /** A message whose header went out sent something, and a finished one sent its header. */
  predicate Told(m: Message) {
    (m.headerSent ==> m.stream != []) && (m.finished ==> m.headerSent)
  }

  predicate MessageOk(m: Message, k: nat, current: Option<nat>, done: nat) {
    && m.header != [] && Told(m)
    && (m.attached <==> current == Some(k))
    && (!m.attached && !m.finished ==> Waiting(m))
    && (k < done ==> m.finished && !m.attached)
  }

  predicate AllOk(c: Conn) {
    forall k :: 0 <= k < |c.msgs| ==> MessageOk(c.msgs[k], k, c.current, c.done)
  }

  /** The responses in the queue are different ones, and none of them had the socket. */
  predicate QueueOk(c: Conn)
    requires Sane(c)
  {
    && (forall i :: 0 <= i < |c.outgoing| ==> c.done <= c.outgoing[i] && Waiting(c.msgs[c.outgoing[i]]))
    && (forall i, j :: 0 <= i < j < |c.outgoing| ==> c.outgoing[i] != c.outgoing[j])
  }

  predicate Common(c: Conn) {
    && Sane(c)
    && c.done <= |c.msgs|
    && AllOk(c)
    && QueueOk(c)
    && c.sock.bytes <= Due(c)
  }

  /** While the socket is open, requests and responses are in step. */
  predicate InStep(c: Conn)
    requires c.done <= |c.msgs|
  {
    && c.sock.bytes == Due(c)
    && c.incoming == Range(c.done, |c.msgs|)
    && (forall k :: c.done < k < |c.msgs| ==> Waiting(c.msgs[k]))
    && (c.done == |c.msgs| ==> c.current == None && c.outgoing == [])
    && (c.done < |c.msgs| ==> c.current == Some(c.done) && Flowing(c.msgs[c.done]))
    && (c.done < |c.msgs| ==> c.outgoing == Range(c.done + 1, |c.msgs|))
  }

  predicate Inv(c: Conn) {
    Common(c) && (c.sock.status == Open ==> InStep(c))
  }

  // ---------------------------------------------------------------- what is due

  /** What the done responses sent. */
  function Settled(c: Conn): seq<Byte>
    requires c.done <= |c.msgs|
  {
    Flatten(Streams(c.msgs)[..c.done])
  }

  lemma DueUpdate(c: Conn, c': Conn, k: nat, m: Message)
    requires c.done <= k < |c.msgs| && c'.done == c.done && c'.msgs == c.msgs[k := m]
    requires c.msgs[k].stream <= m.stream
    ensures Settled(c') == Settled(c) && Due(c) <= Due(c')
    ensures Due(c') == Settled(c) + (if k == c.done then m.stream else c.msgs[c.done].stream)
  {
    assert Streams(c'.msgs)[..c.done] == Streams(c.msgs)[..c.done];
    PrefixPlus(Settled(c), c.msgs[k].stream, m.stream);
  }

  lemma PrefixPlus(base: seq<Byte>, a: seq<Byte>, b: seq<Byte>)
    requires a <= b
    ensures base + a <= base + b
  {}

  lemma DueAppend(c: Conn, c': Conn, m: Message)
    requires c.done <= |c.msgs| && c'.done == c.done && c'.msgs == c.msgs + [m]
    ensures Settled(c') == Settled(c) && Due(c) <= Due(c')
    ensures m.stream == [] ==> Due(c') == Due(c)
  {
    assert Streams(c'.msgs)[..c.done] == Streams(c.msgs)[..c.done];
  }

  /** One more response is done, and nothing else was sent. */
  lemma DueNext(c: Conn, c': Conn)
    requires c.done < |c.msgs| && c'.done == c.done + 1 && Streams(c'.msgs) == Streams(c.msgs)
    requires |c'.msgs| == |c.msgs|
    ensures Settled(c') == Due(c) && Due(c) <= Due(c')
  {
    assert Streams(c.msgs)[..c.done + 1] == Streams(c.msgs)[..c.done] + [c.msgs[c.done].stream];
    FlattenSnoc(Streams(c.msgs)[..c.done], c.msgs[c.done].stream);
  }

  // ---------------------------------------------------------------- the socket is shut

  /** After the socket was shut or destroyed only the lists change. */
  lemma {:induction false} LateFinish(c: Conn, k: nat)
    requires Common(c) && c.sock.status != Open && k < |c.msgs| && c.msgs[k].finished
    ensures OnFinish(c, k).Some? ==> Common(OnFinish(c, k).value)
    ensures OnFinish(c, k).Some? ==> OnFinish(c, k).value.sock == c.sock && OnFinish(c, k).value.done == c.done
    ensures OnFinish(c, k).Some? ==> Streams(OnFinish(c, k).value.msgs) == Streams(c.msgs)
    decreases |c.outgoing|, 0
  {
    if (c.incoming != [] && c.incoming[0] != k) || c.current != Some(k) {
    } else {
      var c1 := Detached(c, k);
      LateDetach(c, k);
      if k in c.last {
      } else if c.outgoing == [] {
      } else {
        LateAssign(c1.(outgoing := c.outgoing[1..]), c.outgoing[0]);
      }
    }
  }

  lemma LateDetach(c: Conn, k: nat)
    requires Common(c) && c.sock.status != Open && k < |c.msgs| && c.msgs[k].finished && c.current == Some(k)
    ensures Common(Detached(c, k)) && Streams(Detached(c, k).msgs) == Streams(c.msgs)
    ensures Detached(c, k).sock == c.sock && Detached(c, k).done == c.done
    ensures Detached(c, k).current == None && Detached(c, k).outgoing == c.outgoing
  {
    var c1 := Detached(c, k);
    assert MessageOk(c.msgs[k], k, c.current, c.done);
    DueUpdate(c, c1, k, c1.msgs[k]);
    forall i | 0 <= i < |c1.msgs| ensures MessageOk(c1.msgs[i], i, c1.current, c1.done) {
      assert MessageOk(c.msgs[i], i, c.current, c.done);
    }
  }

  lemma {:induction false} LateAssign(c: Conn, k: nat)
    requires Common(c) && c.sock.status != Open && c.done <= k < |c.msgs| && k !in c.outgoing
    ensures Assign(c, k).Some? ==> Common(Assign(c, k).value)
    ensures Assign(c, k).Some? ==> Assign(c, k).value.sock == c.sock && Assign(c, k).value.done == c.done
    ensures Assign(c, k).Some? ==> Streams(Assign(c, k).value.msgs) == Streams(c.msgs)
    decreases |c.outgoing|, 1
  {
    if c.current.Some? {
    } else {
      var c1 := Attached(c, k);
      LateAttach(c, k);
      if c1.msgs[k].output == [] && c1.msgs[k].finished {
        LateFinish(c1, k);
      }
    }
  }

  lemma LateAttach(c: Conn, k: nat)
    requires Common(c) && c.sock.status != Open && c.done <= k < |c.msgs| && c.current == None && k !in c.outgoing
    ensures Common(Attached(c, k)) && Streams(Attached(c, k).msgs) == Streams(c.msgs)
    ensures Attached(c, k).sock == c.sock && Attached(c, k).done == c.done && Attached(c, k).outgoing == c.outgoing
  {
    var c1 := Attached(c, k);
    DueUpdate(c, c1, k, c1.msgs[k]);
    forall i | 0 <= i < |c1.msgs| ensures MessageOk(c1.msgs[i], i, c1.current, c1.done) {
      assert MessageOk(c.msgs[i], i, c.current, c.done);
    }
  }

  // ---------------------------------------------------------------- the socket is open

  /** Between two responses: response `done` is about to get the socket. */
  predicate Between(c: Conn) {
    && Sane(c) && c.done < |c.msgs| && c.sock.status == Open && c.current == None
    && AllOk(c)
    && c.sock.bytes == Settled(c)
    && c.incoming == Range(c.done, |c.msgs|) && c.outgoing == Range(c.done + 1, |c.msgs|)
    && (forall k :: c.done <= k < |c.msgs| ==> Waiting(c.msgs[k]))
  }

  /** Response `done` was sent and is about to emit 'finish'. */
  predicate Complete(c: Conn) {
    && Sane(c) && c.done < |c.msgs| && c.sock.status == Open && c.current == Some(c.done)
    && AllOk(c)
    && c.sock.bytes == Due(c)
    && c.incoming == Range(c.done, |c.msgs|) && c.outgoing == Range(c.done + 1, |c.msgs|)
    && (forall k :: c.done < k < |c.msgs| ==> Waiting(c.msgs[k]))
    && c.msgs[c.done].finished
  }

  lemma RangeTail(a: nat, b: nat)
    requires a < b
    ensures Range(a, b)[0] == a && Range(a, b)[1..] == Range(a + 1, b)
  {}

  /** The response that gets the socket sends what it has. */
  lemma AttachOpen(c: Conn)
    requires Between(c)
    ensures var c1 := Attached(c, c.done);
      && c1.msgs[c.done].output == [] && c1.outgoing == c.outgoing
      && (c1.msgs[c.done].finished ==> Complete(c1))
      && (!c1.msgs[c.done].finished ==> Inv(c1))
  {
    var k := c.done;
    var c1 := Attached(c, k);
    assert MessageOk(c.msgs[k], k, c.current, c.done);
    DueUpdate(c, c1, k, c1.msgs[k]);
    assert c.sock.bytes + AllBytes(c.msgs[k].output) == Settled(c) + c1.msgs[k].stream;
    forall i | 0 <= i < |c1.msgs| ensures MessageOk(c1.msgs[i], i, c1.current, c1.done) {
      assert MessageOk(c.msgs[i], i, c.current, c.done);
    }
  }

  lemma DetachedOk(c: Conn)
    requires Complete(c)
    ensures var c1 := Detached(c, c.done);
      AllOk(c1) && Streams(c1.msgs) == Streams(c.msgs) && c1.done == c.done + 1 && |c1.msgs| == |c.msgs|
  {
    var c1 := Detached(c, c.done);
    assert Streams(c1.msgs) == Streams(c.msgs);
    forall i | 0 <= i < |c1.msgs| ensures MessageOk(c1.msgs[i], i, c1.current, c1.done) {
      assert MessageOk(c.msgs[i], i, c.current, c.done);
    }
  }

  lemma DetachSettled(c: Conn)
    requires Complete(c)
    ensures Common(Detached(c, c.done)) && Detached(c, c.done).sock.bytes == Settled(Detached(c, c.done))
  {
    RangeTail(c.done, |c.msgs|);
    DetachedOk(c);
    DueNext(c, Detached(c, c.done));
  }

  lemma DetachWaiting(c: Conn)
    requires Complete(c)
    ensures var c1 := Detached(c, c.done);
      && c1.incoming == Range(c1.done, |c1.msgs|) && c1.done == c.done + 1 && |c1.msgs| == |c.msgs|
      && forall k :: c1.done <= k < |c1.msgs| ==> Waiting(c1.msgs[k])
  {
    RangeTail(c.done, |c.msgs|);
  }

  /** Then either nothing waits, or the next response is about to get the socket. */
  lemma DetachOpen(c: Conn)
    requires Complete(c)
    ensures var c1 := Detached(c, c.done);
      && Common(c1) && c1.sock.bytes == Settled(c1)
      && (c.outgoing != [] ==> c.outgoing[0] == c1.done && Between(c1.(outgoing := c.outgoing[1..])))
  {
    DetachSettled(c);
    DetachWaiting(c);
    if c.outgoing != [] {
      RangeTail(c.done + 1, |c.msgs|);
    }
  }

  lemma DetachLast(c: Conn)
    requires Complete(c) && c.outgoing == []
    ensures Inv(Detached(c, c.done))
  {
    var c1 := Detached(c, c.done);
    RangeTail(c.done, |c.msgs|);
    DetachOpen(c);
    assert Settled(c1) + [] == Settled(c1);
  }

  /** The last response ends the connection. */
  lemma FinishEnds(c: Conn)
    requires Complete(c) && c.done in c.last
    ensures OnFinish(c, c.done).Some? && Inv(OnFinish(c, c.done).value)
  {
    RangeTail(c.done, |c.msgs|);
    DetachOpen(c);
    ShutKeeps(Detached(c, c.done));
  }

  lemma ShutKeeps(c: Conn)
    requires Common(c) && c.sock.status == Open
    ensures Inv(c.(sock := Shutdown(c.sock)))
  {}

  lemma {:induction false} FinishOpen(c: Conn)
    requires Complete(c)
    ensures OnFinish(c, c.done).Some? && Inv(OnFinish(c, c.done).value)
    decreases |c.outgoing|, 0
  {
    if c.done in c.last {
      FinishEnds(c);
    } else {
      RangeTail(c.done, |c.msgs|);
      if c.outgoing == [] {
        DetachLast(c);
      } else {
        DetachOpen(c);
        AssignOpen(Detached(c, c.done).(outgoing := c.outgoing[1..]));
      }
    }
  }

  lemma {:induction false} AssignOpen(c: Conn)
    requires Between(c)
    ensures Assign(c, c.done).Some? && Inv(Assign(c, c.done).value)
    decreases |c.outgoing|, 1
  {
    AttachOpen(c);
    if Attached(c, c.done).msgs[c.done].finished {
      FinishOpen(Attached(c, c.done));
    }
  }

  // ---------------------------------------------------------------- every step

  predicate New(m: Message) {
    m == NewMessage(m.header, m.chunked, m.hasBody, m.trailer) && m.header != []
  }

  lemma NewWaiting(m: Message)
    requires New(m)
    ensures Waiting(m)
  {}

  lemma RangeSnoc(a: nat, b: nat)
    requires a <= b
    ensures Range(a, b + 1) == Range(a, b) + [b]
  {}

  lemma ListedOk(c: Conn, m: Message)
    requires Common(c) && New(m)
    ensures Common(Listed(c, m)) && Settled(Listed(c, m)) == Settled(c) && Due(Listed(c, m)) == Due(c)
  {
    var c1 := Listed(c, m);
    DueAppend(c, c1, m);
    NewWaiting(m);
    forall i | 0 <= i < |c1.msgs| ensures MessageOk(c1.msgs[i], i, c1.current, c1.done) {
      assert i < |c.msgs| ==> MessageOk(c.msgs[i], i, c.current, c.done);
    }
  }

  lemma ListedBehind(c: Conn, m: Message)
    requires Inv(c) && New(m) && c.sock.status == Open && c.current.Some?
    ensures Inv(Listed(c, m).(outgoing := c.outgoing + [|c.msgs|]))
  {
    ListedOk(c, m);
    NewWaiting(m);
    RangeSnoc(c.done, |c.msgs|);
    RangeSnoc(c.done + 1, |c.msgs|);
  }

  lemma ListedFirst(c: Conn, m: Message)
    requires Inv(c) && New(m) && c.sock.status == Open && c.current == None
    ensures Between(Listed(c, m)) && c.done == |c.msgs|
  {
    ListedOk(c, m);
    NewWaiting(m);
    RangeSnoc(c.done, |c.msgs|);
    var c1 := Listed(c, m);
    assert c1.outgoing == Range(c.done + 1, |c1.msgs|);
    assert Settled(c) + [] == Settled(c);
  }

  lemma RequestOpen(c: Conn, m: Message)
    requires Inv(c) && New(m) && c.sock.status == Open
    ensures var r := OnRequest(c, m.header, m.chunked, m.hasBody, m.trailer); r.Some? && Inv(r.value)
  {
    if c.current.Some? {
      ListedBehind(c, m);
    } else {
      ListedFirst(c, m);
      AssignOpen(Listed(c, m));
    }
  }

  lemma ListedLate(c: Conn, m: Message)
    requires Common(c) && New(m) && c.sock.status != Open
    ensures Inv(Listed(c, m).(outgoing := c.outgoing + [|c.msgs|]))
  {
    ListedOk(c, m);
    NewWaiting(m);
  }

  lemma RequestLate(c: Conn, m: Message)
    requires Inv(c) && New(m) && c.sock.status != Open
    ensures var r := OnRequest(c, m.header, m.chunked, m.hasBody, m.trailer); r.Some? && Inv(r.value)
  {
    if c.current.Some? {
      ListedLate(c, m);
    } else {
      ListedOk(c, m);
      LateAssign(Listed(c, m), |c.msgs|);
    }
  }

  lemma RequestKeeps(c: Conn, header: Text, chunked: bool, hasBody: bool, trailer: Text)
    requires Inv(c) && header != []
    ensures var r := OnRequest(c, header, chunked, hasBody, trailer); r.Some? && Inv(r.value)
  {
    var m := NewMessage(header, chunked, hasBody, trailer);
    if c.sock.status == Open {
      RequestOpen(c, m);
    } else {
      RequestLate(c, m);
    }
  }

  // ---------------------------------------------------------------- calls on a response

  /** Sending changes the output and what is recorded of it, and nothing on a closed socket. */
  predicate OnlyOutput(m: Message, s: Sock, m': Message, s': Sock) {
    && m' == m.(headerSent := m'.headerSent, output := m'.output, stream := m'.stream)
    && m.stream <= m'.stream
    && (m.header != [] && Told(m) ==> Told(m'))
    && s'.status == s.status
    && (s.status != Open || !m.attached ==> s' == s)
  }

  lemma RawOnly(m: Message, s: Sock, d: Data)
    ensures var (m', s') := WriteRaw(m, s, d);
      && m' == m.(output := m'.output) && s'.status == s.status && (s.status != Open || !m.attached ==> s' == s)
  {}

  lemma SendOnly(m: Message, s: Sock, d: Data)
    requires Plain(d)
    ensures OnlyOutput(m, s, Send(m, s, d).0, Send(m, s, d).1)
  {
    if m.headerSent {
      RawOnly(m.(stream := m.stream + BytesOf(d)), s, d);
    } else {
      if m.header != [] {
        SentSomething(m, d);
      }
      match d
      case Str(text, enc) =>
        var d' := Str(m.header + text, enc);
        RawOnly(m.(headerSent := true, stream := m.stream + BytesOf(d')), s, d');
      case Buf(b) =>
        var h := Str(m.header, Ascii);
        Assoc(m.stream, BytesOf(h), b);
        RawOnly(m.(headerSent := true, output := [h] + m.output, stream := m.stream + BytesOf(h) + b), s, d);
    }
  }

  /** A response without the socket does not look at it. */
  lemma SendElsewhere(m: Message, s: Sock, t: Sock, d: Data)
    requires !m.attached
    ensures Send(m, s, d).0 == Send(m, t, d).0 && !Send(m, s, d).0.attached
  {}

  lemma OnlyTwice(m: Message, s: Sock, m1: Message, s1: Sock, m2: Message, s2: Sock)
    requires OnlyOutput(m, s, m1, s1) && OnlyOutput(m1, s1, m2, s2)
    ensures OnlyOutput(m, s, m2, s2)
  {}

  lemma {:induction false} SendAllOnly(m: Message, s: Sock, ds: seq<Data>)
    requires forall k :: 0 <= k < |ds| ==> Plain(ds[k])
    ensures OnlyOutput(m, s, SendAll(m, s, ds).0, SendAll(m, s, ds).1)
    decreases |ds|
  {
    if ds != [] {
      var (m1, s1) := Send(m, s, ds[0]);
      SendOnly(m, s, ds[0]);
      SendAllOnly(m1, s1, ds[1..]);
      OnlyTwice(m, s, m1, s1, SendAll(m, s, ds).0, SendAll(m, s, ds).1);
    }
  }

  lemma WriteOnly(m: Message, s: Sock, d: Data)
    requires Accepted(m.chunked, d)
    ensures OnlyOutput(m, s, HttpOutgoing.Write(m, s, d).0, HttpOutgoing.Write(m, s, d).1)
  {
    SendAllOnly(m, s, Pieces(m.chunked, d));
  }

  lemma EndOnly(m: Message, s: Sock, final: Option<Data>)
    requires final.Some? ==> Accepted(m.chunked, final.value)
    ensures var (m', s') := EndOutput(m, s, final);
      OnlyOutput(m, s, m'.(finished := m.finished), s') && m'.finished && m'.headerSent
  {
    var (m1, s1) := match final case Some(d) => HttpOutgoing.Write(m, s, d) case None => (m, s);
    if final.Some? {
      WriteOnly(m, s, final.value);
    }
    SendOnly(m1, s1, LastPiece(m1));
    OnlyTwice(m, s, m1, s1, Send(m1, s1, LastPiece(m1)).0, Send(m1, s1, LastPiece(m1)).1);
  }

  lemma {:induction false} SendAllElsewhere(m: Message, s: Sock, t: Sock, ds: seq<Data>)
    requires !m.attached
    ensures SendAll(m, s, ds).0 == SendAll(m, t, ds).0
    decreases |ds|
  {
    if ds != [] {
      SendElsewhere(m, s, t, ds[0]);
      SendAllElsewhere(Send(m, s, ds[0]).0, Send(m, s, ds[0]).1, Send(m, t, ds[0]).1, ds[1..]);
    }
  }

  lemma WaitingBalance(m: Message)
    ensures Waiting(m) <==> !m.attached && Fine(m, Sock([], Open)) && Balanced([], m, Sock([], Open))
  {
    assert [] + AllBytes(m.output) == AllBytes(m.output) && [] + m.stream == m.stream;
  }

  lemma WaitingWrite(m: Message, s: Sock, d: Data)
    requires Waiting(m) && Accepted(m.chunked, d) && m.header != []
    ensures Waiting(HttpOutgoing.Write(m, s, d).0)
  {
    var t := Sock([], Open);
    WaitingBalance(m);
    WriteBalanced([], m, t, d);
    SendAllElsewhere(m, s, t, Pieces(m.chunked, d));
    WaitingBalance(HttpOutgoing.Write(m, t, d).0);
  }

  lemma WaitingEnd(m: Message, s: Sock, final: Option<Data>)
    requires Waiting(m) && m.header != [] && (final.Some? ==> Accepted(m.chunked, final.value))
    ensures Waiting(EndOutput(m, s, final).0) && EndOutput(m, s, final).0.output != []
  {
    var t := Sock([], Open);
    WaitingBalance(m);
    EndBalanced([], m, t, final);
    var (m1, s1) := match final case Some(d) => HttpOutgoing.Write(m, s, d) case None => (m, s);
    var (m2, s2) := match final case Some(d) => HttpOutgoing.Write(m, t, d) case None => (m, t);
    if final.Some? {
      SendAllElsewhere(m, s, t, Pieces(m.chunked, final.value));
      WriteOnly(m, s, final.value);
    }
    SendElsewhere(m1, s1, s2, LastPiece(m1));
    WaitingBalance(EndOutput(m, t, final).0);
  }

  function Updated(c: Conn, k: nat, m: Message, s: Sock): Conn
    requires k < |c.msgs|
  {
    c.(msgs := c.msgs[k := m], sock := s)
  }

  /** A response that does not have the open socket sent more. */
  lemma UpdateCommon(c: Conn, k: nat, m: Message)
    requires Common(c) && c.done <= k < |c.msgs| && c.msgs[k].stream <= m.stream
    requires m.header == c.msgs[k].header && m.attached == c.msgs[k].attached
    requires Told(m) && (Waiting(c.msgs[k]) || (!m.attached && !m.finished) ==> Waiting(m))
    ensures Common(Updated(c, k, m, c.sock)) && Due(c) <= Due(Updated(c, k, m, c.sock))
    ensures k > c.done ==> Due(Updated(c, k, m, c.sock)) == Due(c)
  {
    var c1 := Updated(c, k, m, c.sock);
    DueUpdate(c, c1, k, m);
    forall i | 0 <= i < |c1.msgs| ensures MessageOk(c1.msgs[i], i, c1.current, c1.done) {
      assert MessageOk(c.msgs[i], i, c.current, c.done);
    }
  }

  lemma UpdateWaiting(c: Conn, k: nat, m: Message)
    requires Inv(c) && c.sock.status == Open && c.done < k < |c.msgs| && c.msgs[k].stream <= m.stream
    requires m.header == c.msgs[k].header && Waiting(m) && Told(m)
    ensures Inv(Updated(c, k, m, c.sock))
  {
    UpdateCommon(c, k, m);
  }

  /** The response that has the socket sent more, and it went out. */
  lemma UpdateFlowing(c: Conn, m: Message, s: Sock)
    requires Inv(c) && c.sock.status == Open && c.done < |c.msgs|
    requires m.header == c.msgs[c.done].header && m.attached && Fine(m, s) && m.output == [] && Told(m)
    requires c.msgs[c.done].stream <= m.stream && s.bytes == Settled(c) + m.stream && s.status == Open
    ensures m.finished ==> Complete(Updated(c, c.done, m, s))
    ensures !m.finished ==> Inv(Updated(c, c.done, m, s))
  {
    var k := c.done;
    var c1 := Updated(c, k, m, s);
    DueUpdate(c, c1, k, m);
    forall i | 0 <= i < |c1.msgs| ensures MessageOk(c1.msgs[i], i, c1.current, c1.done) {
      assert MessageOk(c.msgs[i], i, c.current, c.done);
    }
  }

  lemma FlowingWrite(base: seq<Byte>, m: Message, s: Sock, d: Data)
    requires Flowing(m) && s.status == Open && s.bytes == base + m.stream && Accepted(m.chunked, d) && m.header != []
    ensures var (m', s') := HttpOutgoing.Write(m, s, d);
      && Flowing(m') && Fine(m', s') && s'.status == Open && s'.bytes == base + m'.stream
      && m.stream <= m'.stream && m'.header == m.header
  {
    assert s.bytes + [] == s.bytes;
    WriteBalanced(base, m, s, d);
    var s' := HttpOutgoing.Write(m, s, d).1;
    assert s'.bytes + [] == s'.bytes;
  }

  lemma FlowingEnd(base: seq<Byte>, m: Message, s: Sock, final: Option<Data>)
    requires Flowing(m) && s.status == Open && s.bytes == base + m.stream && m.header != []
    requires final.Some? ==> Accepted(m.chunked, final.value)
    ensures var (m', s') := EndOutput(m, s, final);
      && m'.attached && m'.output == [] && m'.finished && Told(m') && Fine(m', s') && s'.status == Open
      && s'.bytes == base + m'.stream && m.stream <= m'.stream && m'.header == m.header
  {
    assert s.bytes + [] == s.bytes;
    EndBalanced(base, m, s, final);
    var s' := EndOutput(m, s, final).1;
    assert s'.bytes + [] == s'.bytes;
  }

  lemma WriteKeeps(c: Conn, k: nat, d: Data)
    requires Inv(c) && c.done <= k < |c.msgs| && Accepted(c.msgs[k].chunked, d)
    ensures Inv(OnWrite(c, k, d))
  {
    assert MessageOk(c.msgs[k], k, c.current, c.done);
    var (m, s) := HttpOutgoing.Write(c.msgs[k], c.sock, d);
    if c.sock.status == Open && k == c.done {
      FlowingWrite(Settled(c), c.msgs[k], c.sock, d);
      UpdateFlowing(c, m, s);
    } else {
      WriteOnly(c.msgs[k], c.sock, d);
      if Waiting(c.msgs[k]) {
        WaitingWrite(c.msgs[k], c.sock, d);
      }
      if c.sock.status == Open {
        UpdateWaiting(c, k, m);
      } else {
        UpdateCommon(c, k, m);
      }
    }
  }

  lemma EndKeeps(c: Conn, k: nat, final: Option<Data>)
    requires Inv(c) && k < |c.msgs| && (final.Some? ==> Accepted(c.msgs[k].chunked, final.value))
    ensures var r := OnEndOf(c, k, final);
      && (c.sock.status == Open ==> r.Some?) && (r.Some? ==> Inv(r.value))
      && (!c.msgs[k].finished && !c.msgs[k].attached ==> r.Some?)
  {
    assert MessageOk(c.msgs[k], k, c.current, c.done);
    if !c.msgs[k].finished {
      var (m, s) := EndOutput(c.msgs[k], c.sock, final);
      if c.sock.status == Open && k == c.done {
        FlowingEnd(Settled(c), c.msgs[k], c.sock, final);
        UpdateFlowing(c, m, s);
        FinishOpen(Updated(c, k, m, s));
      } else {
        EndOnly(c.msgs[k], c.sock, final);
        if Waiting(c.msgs[k]) {
          WaitingEnd(c.msgs[k], c.sock, final);
        }
        if c.sock.status == Open {
          UpdateWaiting(c, k, m);
        } else {
          UpdateCommon(c, k, m);
          if m.output == [] {
            LateFinish(Updated(c, k, m, s), k);
          }
        }
      }
    }
  }

  lemma Unsent(c: Conn, c': Conn)
    requires Common(c) && c'.msgs == c.msgs && c'.done == c.done && c'.current == c.current && c'.outgoing == c.outgoing
    requires c'.sock.bytes == c.sock.bytes
    ensures Common(c')
  {}

  /** The events that send nothing. */
  lemma QuietKeeps(c: Conn, e: Event)
    requires Inv(c) && Allowed(c, e) && (e.SetLast? || e.OnEnd? || e.Destroy? || e.OnClose?)
    ensures Step(c, e).Some? && Inv(Step(c, e).value)
  {
    Unsent(c, Step(c, e).value);
  }

  /**
   Every step keeps the invariant, and while the socket is open no assertion of the source
   fails; at all times `end` finds the connection it looks at.
   */
  lemma StepKeeps(c: Conn, e: Event)
    requires Inv(c) && Allowed(c, e)
    ensures Step(c, e).Some? ==> Inv(Step(c, e).value)
    ensures c.sock.status == Open ==> Step(c, e).Some?
    ensures Step(c, e) == None ==> e.EndOf? && c.msgs[e.k].attached
  {
    match e {
      case Request(header, chunked, hasBody, trailer) => RequestKeeps(c, header, chunked, hasBody, trailer);
      case WriteTo(k, d) => WriteKeeps(c, k, d);
      case EndOf(k, final) => EndKeeps(c, k, final);
      case _ => QuietKeeps(c, e);
    }
  }

  // ---------------------------------------------------------------- whole runs

  /** The state after some events; None once an assertion failed. */
  function After(es: seq<Event>): (r: Option<Conn>)
    ensures r.Some? ==> Inv(r.value)
  {
    if es == [] then
      Some(NewConn())
    else
      match After(es[..|es| - 1])
      case None => None
      case Some(c) =>
        var e := es[|es| - 1];
        if !Allowed(c, e) then Some(c)
        else
          StepKeeps(c, e);
          Step(c, e)
  }

  lemma {:induction false} StreamsPrefix(msgs: seq<Message>, done: nat)
    requires done <= |msgs|
    ensures Flatten(Streams(msgs)[..done]) <= Flatten(Streams(msgs))
    ensures done < |msgs| ==> Flatten(Streams(msgs)[..done]) + msgs[done].stream <= Flatten(Streams(msgs))
  {
    var all := Streams(msgs);
    assert all == all[..done] + all[done..];
    FlattenAppend(all[..done], all[done..]);
  }

  /**
   For every interleaving of the handlers: what is on the socket is a prefix of the
   responses' streams one after the other, in the order of the requests. While the socket
   is open that is everything the finished responses and the current one sent, and if all
   responses are finished, everything there is.
   */
  lemma Pipelined(es: seq<Event>)
    requires After(es).Some?
    ensures var c := After(es).value;
      && c.sock.bytes <= Flatten(Streams(c.msgs))
      && (c.sock.status == Open ==> c.sock.bytes == Due(c))
      && (c.sock.status == Open && (forall k :: 0 <= k < |c.msgs| ==> c.msgs[k].finished)
          ==> c.sock.bytes == Flatten(Streams(c.msgs)))
  {
    var c := After(es).value;
    StreamsPrefix(c.msgs, c.done);
    if c.done == |c.msgs| {
      assert Streams(c.msgs)[..c.done] == Streams(c.msgs);
      assert Settled(c) + [] == Settled(c);
    }
  }

  /** As long as nobody shut or destroyed the socket no assertion fails. */
  lemma NoAssertionFails(es: seq<Event>, e: Event)
    requires After(es).Some? && After(es).value.sock.status == Open
    ensures After(es + [e]).Some?
  {
    assert (es + [e])[..|es|] == es;
    var c := After(es).value;
    if Allowed(c, e) {
      StepKeeps(c, e);
    }
  }
}
